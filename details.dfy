/**
 * The drink recipe carried by a scanned barcode's number: the details screen
 * unpacks it into liquor levels, a water level, a glass and a drink id, lets
 * the user change them, and packs them again into the number it prints.
 *
 * Bit 0 is always set; bits 1-2 hold the glass, bits 3-7 the water level,
 * bits 8-12 say which liquors are present, three bits per present liquor
 * from bit 13 hold its level minus one, and bits 22-30 hold the drink id.
 * Amounts are in hundredths of an ounce.
 */
module Details {
  import opened Wrappers
  import opened Int32Math
  import opened Int32Bits
  import Code128
  import Code128Analyzer

  datatype Alcohol = Tequila | Vodka | Gin | Rum | Whiskey

  datatype Glass = Lowball | Highball | Shaker

  /** A liquor level: 0 for none, otherwise one more than the index of its amount in `ALCOHOL_AMOUNTS`. */
  type Level = x: int | 0 <= x <= 8

  /** A water level: an index into `WATER_AMOUNTS`. */
  type WaterLevel = x: int | 0 <= x < 32

  /** The liquors `listOfAlcohols` tests, in its order. */
  const DECODE_ORDER: seq<Alcohol> := [Tequila, Vodka, Gin, Rum, Whiskey]

  /** The bit `listOfAlcohols` tests for each liquor. */
  function PresenceBit(a: Alcohol): (bit: nat)
    ensures 8 <= bit <= 12
  {
    match a
    case Tequila => 11
    case Vodka => 10
    case Gin => 8
    case Rum => 9
    case Whiskey => 12
  }

  lemma Listed(a: Alcohol)
    ensures a in DECODE_ORDER
  {
    match a
    case Tequila => assert DECODE_ORDER[0] == a;
    case Vodka => assert DECODE_ORDER[1] == a;
    case Gin => assert DECODE_ORDER[2] == a;
    case Rum => assert DECODE_ORDER[3] == a;
    case Whiskey => assert DECODE_ORDER[4] == a;
  }

  lemma PresenceBitInjective(a: Alcohol, b: Alcohol)
    requires PresenceBit(a) == PresenceBit(b)
    ensures a == b
  {
    match a
    case Tequila =>
    case Vodka =>
    case Gin =>
    case Rum =>
    case Whiskey =>
  }

  /** Every liquor has a level. */
  predicate Complete(levels: map<Alcohol, Level>)
  {
    forall a: Alcohol :: a in levels
  }

  predicate Distinct(order: seq<Alcohol>)
  {
    forall i, j :: 0 <= i < j < |order| ==> order[i] != order[j]
  }

  /** The decoder tests each liquor once. */
  lemma DecodeOrderDistinct()
    ensures Distinct(DECODE_ORDER)
  {
    forall i, j | 0 <= i < j < 5
      ensures DECODE_ORDER[i] != DECODE_ORDER[j]
    {
      assert i == 0 || i == 1 || i == 2 || i == 3;
    }
  }

  datatype Recipe = Recipe(levels: map<Alcohol, Level>, water: WaterLevel, glass: Glass, drinkId: Int32)

  // ---------------------------------------------------------------------
  // Decoding: the view model's field initialisers
  // ---------------------------------------------------------------------

  /** `listOfAlcohols`: the liquors of `order` whose presence bit is set, in that order. */
  function Flagged(w: Word, order: seq<Alcohol>): (present: seq<Alcohol>)
    ensures |present| <= |order|
    ensures forall a :: a in present <==> a in order && w[PresenceBit(a)]
  {
    if order == [] then []
    else (if HasBit(w, PresenceBit(order[0])) then [order[0]] else []) + Flagged(w, order[1..])
  }

  /** `indexOf`: the first position of `a`, or -1. */
  function IndexOf(s: seq<Alcohol>, a: Alcohol): (i: int)
    ensures -1 <= i < |s|
    ensures i == -1 <==> a !in s
    ensures i >= 0 ==> s[i] == a && a !in s[..i]
  {
    if s == [] then -1
    else if s[0] == a then 0
    else
      var j := IndexOf(s[1..], a);
      if j == -1 then -1
      else
        assert s[..j + 1] == [s[0]] + s[1..][..j];
        j + 1
  }

  /**
   * The `alcoholStates` initialiser for one liquor: 0 when it is not among
   * `present`, otherwise one more than the three bits at `13 + 3 * i`, where
   * `i` is its position in `present`.
   */
  function LevelIn(w: Word, present: seq<Alcohol>, a: Alcohol): Level
    requires |present| <= 5
  {
    var i := IndexOf(present, a);
    if i == -1 then 0 else Field(w, 13 + 3 * i, 3) + 1
  }

  /** The level of `a`, with `present` the liquors `listOfAlcohols` finds. */
  function DecodedLevel(w: Word, a: Alcohol): Level
  {
    LevelIn(w, Flagged(w, DECODE_ORDER), a)
  }

  /** `when (scannedBarcode and 0b110)`: the glass, or the exception for the fourth pattern. */
  function DecodeGlass(w: Word): (r: Result<Glass, string>)
    ensures r.Err? <==> w[1] && w[2]
    ensures r == Ok(Highball) <==> w[1] && !w[2]
    ensures r == Ok(Shaker) <==> !w[1] && w[2]
  {
    assert Field(w, 1, 2) == (if w[1] then 1 else 0) + (if w[2] then 2 else 0) by {
      var b := w[1..3];
      assert b[1..][1..] == [];
      assert Unsigned(b[1..]) == (if w[2] then 1 else 0);
    }
    match Field(w, 1, 2)
    case 0 => Ok(Lowball)
    case 2 => Ok(Shaker)
    case 1 => Ok(Highball)
    case _ => Err("Glass type unknown")
  }

  /** The field initialisers of the view model, on the bits of the scanned barcode. */
  function Decode(w: Word): (r: Result<Recipe, string>)
    ensures r.Err? <==> w[1] && w[2]
    ensures r.Ok? ==> Complete(r.value.levels) && 0 <= r.value.drinkId < 512
  {
    match DecodeGlass(w)
    case Err(e) => Err(e)
    case Ok(g) =>
      var levels := map a | a in DECODE_ORDER :: DecodedLevel(w, a);
      assert Complete(levels) by {
        forall a: Alcohol
          ensures a in levels
        {
          Listed(a);
        }
      }
      Ok(Recipe(levels, Field(w, 3, 5), g, Field(w, 22, 9)))
  }

  // ---------------------------------------------------------------------
  // Encoding: the `barcode` getter
  // ---------------------------------------------------------------------

  /** The `when (glass)` of the `barcode` getter. */
  function GlassBits(g: Glass): Int32
  {
    match g
    case Highball => 2
    case Lowball => 0
    case Shaker => 4
  }

  /** `filter { it.intValue > 0 }`: the liquors of `order` with a level above zero. */
  function Present(levels: map<Alcohol, Level>, order: seq<Alcohol>): (present: seq<Alcohol>)
    requires Complete(levels)
    ensures |present| <= |order|
    ensures forall a :: a in present <==> a in order && levels[a] > 0
  {
    if order == [] then []
    else (if levels[order[0]] > 0 then [order[0]] else []) + Present(levels, order[1..])
  }

  /** `alcoholBits` as written: the liquor at position `idx` of `order`, when present, sets bit `8 + idx`. */
  function AlcoholBitsAsWritten(levels: map<Alcohol, Level>, order: seq<Alcohol>): Word
    requires Complete(levels)
  {
    if order == [] then Zero()
    else
      var n := |order| - 1;
      Or(AlcoholBitsAsWritten(levels, order[..n]),
         if levels[order[n]] > 0 then Shl(WordOf(1), 8 + n) else Zero())
  }

  /** `alcoholBits` as the decoder reads them: each present liquor sets its own presence bit. */
  function AlcoholBits(levels: map<Alcohol, Level>, order: seq<Alcohol>): Word
    requires Complete(levels)
  {
    if order == [] then Zero()
    else
      var n := |order| - 1;
      Or(AlcoholBits(levels, order[..n]),
         if levels[order[n]] > 0 then Shl(WordOf(1), PresenceBit(order[n])) else Zero())
  }

  /** The levels of `present`, in its order: the values `sizeBits` maps over. */
  function LevelsOf(levels: map<Alcohol, Level>, present: seq<Alcohol>): (values: seq<Level>)
    requires Complete(levels)
    ensures |values| == |present| && forall k :: 0 <= k < |present| ==> values[k] == levels[present[k]]
  {
    seq(|present|, k requires 0 <= k < |present| => levels[present[k]])
  }

  /** The `k`-th entry of `sizeBits`: the `k`-th value minus one, shifted to bit `13 + 3 * k`. */
  function LevelField(values: seq<Level>, k: nat): Word
    requires k < |values|
  {
    Shl(WordOf(values[k] as int - 1), 13 + 3 * k)
  }

  /** The `or` of the first `n` entries of `sizeBits`. */
  function SizeBitsUpTo(values: seq<Level>, n: nat): Word
    requires n <= |values|
  {
    if n == 0 then Zero() else Or(SizeBitsUpTo(values, n - 1), LevelField(values, n - 1))
  }

  /** `sizeBits`: the `or` of all its entries. */
  function SizeBits(values: seq<Level>): Word
  {
    SizeBitsUpTo(values, |values|)
  }

  /** The getter's result: `1 or glass or alcoholBits or sizeBits or (water shl 3) or (drinkId shl 22)`. */
  function Pack(glass: Glass, alcoholBits: Word, sizeBits: Word, water: WaterLevel, drinkId: Int32): Word
  {
    Or(Or(Or(Or(Or(WordOf(1), WordOf(GlassBits(glass))), alcoholBits), sizeBits),
          Shl(WordOf(water), 3)),
       Shl(WordOf(drinkId), 22))
  }

  /**
   * The `barcode` getter as written. `alcoholStates` is a map sorted by the
   * declaration order of `Alcohol`, given here as `order`; the presence bits
   * and the level fields follow that order.
   */
  function EncodeAsWritten(order: seq<Alcohol>, r: Recipe): (w: Word)
    requires Complete(r.levels)
    ensures w[0]
    ensures |order| <= 6 ==> w[1] == (r.glass == Highball) && w[2] == (r.glass == Shaker)
  {
    var ab := AlcoholBitsAsWritten(r.levels, order);
    var values := LevelsOf(r.levels, Present(r.levels, order));
    PackLowBits(r.glass, ab, SizeBits(values), r.water, r.drinkId);
    assert |order| <= 6 ==> !ab[1] && !ab[2] && !SizeBits(values)[1] && !SizeBits(values)[2] by {
      if |order| <= 6 {
        LowBitsClear(r.levels, order);
      }
    }
    Pack(r.glass, ab, SizeBits(values), r.water, r.drinkId)
  }

  /** The `barcode` getter with the presence bits and level fields the decoder expects. */
  function Encode(r: Recipe): (w: Word)
    requires Complete(r.levels)
    ensures w[0]
    ensures w[1] == (r.glass == Highball) && w[2] == (r.glass == Shaker)
  {
    var ab := AlcoholBits(r.levels, DECODE_ORDER);
    var values := LevelsOf(r.levels, Present(r.levels, DECODE_ORDER));
    PackLowBits(r.glass, ab, SizeBits(values), r.water, r.drinkId);
    LowBitsClear(r.levels, DECODE_ORDER);
    Pack(r.glass, ab, SizeBits(values), r.water, r.drinkId)
  }

  // ---------------------------------------------------------------------
  // The bits of the packed word
  // ---------------------------------------------------------------------

  lemma {:induction false} AlcoholBitsAt(levels: map<Alcohol, Level>, order: seq<Alcohol>, j: nat)
    requires Complete(levels) && j < 32
    ensures AlcoholBits(levels, order)[j] <==>
      8 <= j <= 12 && exists a :: a in order && levels[a] > 0 && PresenceBit(a) == j
  {
    if order != [] {
      AlcoholBitsAt(levels, order[..|order| - 1], j);
      AlcoholBitsSnoc(levels, order, j);
      PresentSnoc(levels, order, j);
    }
  }

  /** The last liquor of `order` adds its own presence bit, if it is present. */
  lemma AlcoholBitsSnoc(levels: map<Alcohol, Level>, order: seq<Alcohol>, j: nat)
    requires Complete(levels) && order != [] && j < 32
    ensures var n := |order| - 1;
      AlcoholBits(levels, order)[j] ==
      (AlcoholBits(levels, order[..n])[j] || (levels[order[n]] > 0 && PresenceBit(order[n]) == j))
  {
    ShlOneBit(PresenceBit(order[|order| - 1]), j);
  }

  /** A liquor of `order` is one of `order[..n]` or the last one. */
  lemma PresentSnoc(levels: map<Alcohol, Level>, order: seq<Alcohol>, j: nat)
    requires Complete(levels) && order != []
    ensures var n := |order| - 1;
      (exists a :: a in order && levels[a] > 0 && PresenceBit(a) == j) <==>
      (exists a :: a in order[..n] && levels[a] > 0 && PresenceBit(a) == j) ||
      (levels[order[n]] > 0 && PresenceBit(order[n]) == j)
  {
    var n := |order| - 1;
    assert order == order[..n] + [order[n]];
    if levels[order[n]] > 0 && PresenceBit(order[n]) == j {
      assert order[n] in order;
    }
    forall a | a in order[..n]
      ensures a in order
    {
    }
  }

  /** Each present liquor's presence bit is set, and nothing outside bits 8-12 is. */
  lemma AlcoholBitsOf(levels: map<Alcohol, Level>, a: Alcohol, j: nat)
    requires Complete(levels) && j < 32
    ensures AlcoholBits(levels, DECODE_ORDER)[PresenceBit(a)] == (levels[a] > 0)
    ensures AlcoholBits(levels, DECODE_ORDER)[j] ==> 8 <= j <= 12
  {
    Listed(a);
    AlcoholBitsAt(levels, DECODE_ORDER, PresenceBit(a));
    AlcoholBitsAt(levels, DECODE_ORDER, j);
    forall b | b in DECODE_ORDER && levels[b] > 0 && PresenceBit(b) == PresenceBit(a)
      ensures b == a
    {
      PresenceBitInjective(a, b);
    }
  }

  lemma {:induction false} AlcoholBitsAsWrittenAt(levels: map<Alcohol, Level>, order: seq<Alcohol>, j: nat)
    requires Complete(levels) && |order| <= 24 && j < 32
    ensures AlcoholBitsAsWritten(levels, order)[j] == (8 <= j < 8 + |order| && levels[order[j - 8]] > 0)
  {
    if order != [] {
      var n := |order| - 1;
      AlcoholBitsAsWrittenAt(levels, order[..n], j);
      ShlOneBit(8 + n, j);
    }
  }

  /** A level minus one, shifted to field `k`, occupies the three bits of that field. */
  lemma LevelFieldAt(values: seq<Level>, k: nat, j: nat)
    requires k < |values| && k < 6 && values[k] >= 1 && j < 32
    ensures LevelField(values, k)[j] ==
      (13 + 3 * k <= j < 16 + 3 * k && BitsOf(values[k] as int - 1, 32)[j - 13 - 3 * k])
  {
    FieldBitAt(values[k] as int - 1, k, j);
  }

  lemma FieldBitAt(v: Int32, k: nat, j: nat)
    requires 0 <= v < 8 && k < 6 && j < 32
    ensures Shl(WordOf(v), 13 + 3 * k)[j] == (13 + 3 * k <= j < 16 + 3 * k && BitsOf(v, 32)[j - 13 - 3 * k])
  {
    assert Pow2(3) == 8;
    ShlSmallBit(v, 13 + 3 * k, 3, j);
  }

  lemma {:induction false} SizeBitsUpToOutside(values: seq<Level>, n: nat, j: nat)
    requires n <= |values| <= 6 && j < 32
    requires forall k :: 0 <= k < |values| ==> values[k] >= 1
    requires j < 13 || 13 + 3 * n <= j
    ensures !SizeBitsUpTo(values, n)[j]
  {
    if n > 0 {
      SizeBitsUpToOutside(values, n - 1, j);
      LevelFieldAt(values, n - 1, j);
      OrAt(SizeBitsUpTo(values, n - 1), LevelField(values, n - 1), j);
    }
  }

  lemma {:induction false} SizeBitsUpToField(values: seq<Level>, n: nat, k: nat, t: nat)
    requires n <= |values| <= 6 && k < n && t < 3
    requires forall k :: 0 <= k < |values| ==> values[k] >= 1
    ensures SizeBitsUpTo(values, n)[13 + 3 * k + t] == BitsOf(values[k] as int - 1, 32)[t]
  {
    var j := 13 + 3 * k + t;
    var below, field := SizeBitsUpTo(values, n - 1), LevelField(values, n - 1);
    assert SizeBitsUpTo(values, n) == Or(below, field);
    OrAt(below, field, j);
    if k == n - 1 {
      SizeBitsUpToOutside(values, n - 1, j);
      LevelFieldOwn(values, k, t);
    } else {
      LevelFieldAt(values, n - 1, j);
      SizeBitsUpToField(values, n - 1, k, t);
    }
  }

  /** Bit `t` of field `k` is bit `t` of the `k`-th value minus one. */
  lemma LevelFieldOwn(values: seq<Level>, k: nat, t: nat)
    requires k < |values| && k < 6 && values[k] >= 1 && t < 3
    ensures LevelField(values, k)[13 + 3 * k + t] == BitsOf(values[k] as int - 1, 32)[t]
  {
    var v := values[k] as int - 1;
    FieldBitAt(v, k, 13 + 3 * k + t);
    assert 13 + 3 * k + t - 13 - 3 * k == t;
  }

  /** The level fields occupy bits `13 .. 13 + 3 * |values| - 1` and no others. */
  lemma SizeBitsOutside(values: seq<Level>, j: nat)
    requires |values| <= 6 && j < 32
    requires forall k :: 0 <= k < |values| ==> values[k] >= 1
    requires j < 13 || 13 + 3 * |values| <= j
    ensures !SizeBits(values)[j]
  {
    SizeBitsUpToOutside(values, |values|, j);
  }

  /** Field `k` holds the `k`-th value minus one. */
  lemma SizeBitsField(values: seq<Level>, k: nat, t: nat)
    requires |values| <= 6 && k < |values| && t < 3
    requires forall k :: 0 <= k < |values| ==> values[k] >= 1
    ensures SizeBits(values)[13 + 3 * k + t] == BitsOf(values[k] as int - 1, 32)[t]
  {
    SizeBitsUpToField(values, |values|, k, t);
  }

  lemma GlassBitsAt(g: Glass, j: nat)
    requires j < 32
    ensures WordOf(GlassBits(g))[j] == ((j == 1 && g == Highball) || (j == 2 && g == Shaker))
  {
    var v := GlassBits(g);
    assert WordOf(v)[j] == Bit(v, j) by {
      assert v % MODULUS == v;
    }
    if j >= 3 {
      Pow2Monotone(3, j);
      assert Pow2(3) == 8;
      BitAbove(v, j);
    } else {
      assert Pow2(1) == 2 && Pow2(2) == 4;
    }
  }

  /** Where each part of the getter's `or` lands, when the liquor parts stay in their bits. */
  lemma PackAt(g: Glass, ab: Word, sb: Word, water: WaterLevel, id: Int32, j: nat)
    requires 0 <= id && j < 32
    requires ab[j] ==> 8 <= j <= 12
    requires sb[j] ==> 13 <= j
    ensures Pack(g, ab, sb, water, id)[j] ==
      if j == 0 then true
      else if j < 3 then ((j == 1 && g == Highball) || (j == 2 && g == Shaker))
      else if j < 8 then BitsOf(water, 32)[j - 3]
      else if j < 13 then ab[j]
      else if j < 22 then sb[j]
      else sb[j] || BitsOf(id, 32)[j - 22]
  {
    OneBit(j);
    GlassBitsAt(g, j);
    assert Pow2(5) == 32;
    ShlSmallBit(water, 3, 5, j);
    ShlBit(id, 22, j);
  }

  /** Neither liquor part of the getter reaches the glass bits 1 and 2. */
  lemma LowBitsClear(levels: map<Alcohol, Level>, order: seq<Alcohol>)
    requires Complete(levels) && |order| <= 6
    ensures !AlcoholBits(levels, order)[1] && !AlcoholBits(levels, order)[2]
    ensures !AlcoholBitsAsWritten(levels, order)[1] && !AlcoholBitsAsWritten(levels, order)[2]
    ensures var values := LevelsOf(levels, Present(levels, order));
      !SizeBits(values)[1] && !SizeBits(values)[2]
  {
    AlcoholBitsAt(levels, order, 1);
    AlcoholBitsAt(levels, order, 2);
    AlcoholBitsAsWrittenAt(levels, order, 1);
    AlcoholBitsAsWrittenAt(levels, order, 2);
    var values := LevelsOf(levels, Present(levels, order));
    PresentValuesIn(levels, order);
    SizeBitsOutside(values, 1);
    SizeBitsOutside(values, 2);
  }

  /** Bit 0 is always set; bits 1 and 2 hold the glass when no liquor part reaches them. */
  lemma PackLowBits(g: Glass, ab: Word, sb: Word, water: WaterLevel, id: Int32)
    ensures Pack(g, ab, sb, water, id)[0]
    ensures !ab[1] && !ab[2] && !sb[1] && !sb[2] ==>
      Pack(g, ab, sb, water, id)[1] == (g == Highball) && Pack(g, ab, sb, water, id)[2] == (g == Shaker)
  {
    OneBit(0);
    OneBit(1);
    OneBit(2);
    GlassBitsAt(g, 1);
    GlassBitsAt(g, 2);
  }

  // ---------------------------------------------------------------------
  // Round trip
  // ---------------------------------------------------------------------

  /** The drink-id values the decoder's nine bits hold; the details screen's message names the same bound. */
  predicate DrinkIdAccepted(id: int)
  {
    0 <= id <= 511
  }

  /** `alcoholCount`: the number of liquors with a level above zero. */
  function Count(levels: map<Alcohol, Level>): nat
    requires Complete(levels)
  {
    |Present(levels, DECODE_ORDER)|
  }

  /** A recipe the getter can lay out: at most three liquors, so the level fields end below bit 22. */
  predicate Packable(r: Recipe)
  {
    Complete(r.levels) && Count(r.levels) <= 3 && 0 <= r.drinkId
  }

  /** Changing one liquor's level changes how many liquors are present by at most that liquor's own presence. */
  lemma {:induction false} PresentUpdate(levels: map<Alcohol, Level>, order: seq<Alcohol>, a: Alcohol, l: Level)
    requires Complete(levels) && Distinct(order)
    ensures |Present(levels[a := l], order)| + (if a in order && levels[a] > 0 then 1 else 0) ==
            |Present(levels, order)| + (if a in order && l > 0 then 1 else 0)
  {
    if order != [] {
      var rest := order[1..];
      DistinctTail(order);
      PresentUpdate(levels, rest, a, l);
      assert a in order <==> a == order[0] || a in rest;
    }
  }

  /**
   * The details screen enables a liquor's slider only when that liquor is present or
   * fewer than three are; moving an enabled slider keeps at most three liquors present.
   */
  lemma SliderKeepsCap(levels: map<Alcohol, Level>, a: Alcohol, l: Level)
    requires Complete(levels) && Count(levels) <= 3
    requires levels[a] > 0 || Count(levels) < 3
    ensures Count(levels[a := l]) <= 3
  {
    DecodeOrderDistinct();
    Listed(a);
    CapKept(levels, DECODE_ORDER, a, l);
  }

  lemma CapKept(levels: map<Alcohol, Level>, order: seq<Alcohol>, a: Alcohol, l: Level)
    requires Complete(levels) && Distinct(order) && a in order
    requires |Present(levels, order)| <= 3 && (levels[a] > 0 || |Present(levels, order)| < 3)
    ensures |Present(levels[a := l], order)| <= 3
  {
    PresentUpdate(levels, order, a, l);
  }

  /** No liquor is present exactly when every level is 0. */
  lemma CountZero(levels: map<Alcohol, Level>)
    requires Complete(levels)
    ensures Count(levels) == 0 <==> forall a :: levels[a] == 0
  {
    if Count(levels) == 0 {
      forall a
        ensures levels[a] == 0
      {
        Listed(a);
        assert a !in Present(levels, DECODE_ORDER);
      }
    } else {
      assert Present(levels, DECODE_ORDER)[0] in Present(levels, DECODE_ORDER);
    }
  }

  /** A recipe the details screen can produce: at most three liquors, a drink id in nine bits. */
  predicate ValidRecipe(r: Recipe)
  {
    Packable(r) && DrinkIdAccepted(r.drinkId)
  }

  lemma {:induction false} FlaggedPresent(w: Word, levels: map<Alcohol, Level>, order: seq<Alcohol>)
    requires Complete(levels)
    requires forall a :: a in order ==> w[PresenceBit(a)] == (levels[a] > 0)
    ensures Flagged(w, order) == Present(levels, order)
  {
    if order != [] {
      assert order[0] in order;
      FlaggedPresent(w, levels, order[1..]);
    }
  }

  /** The layout of the recipe word: what bit `j` says about `r`. */
  function LayoutBit(r: Recipe, j: nat): bool
    requires Complete(r.levels) && 0 <= r.drinkId && j < 32
  {
    if j == 0 then true
    else if j < 3 then (j == 1 && r.glass == Highball) || (j == 2 && r.glass == Shaker)
    else if j < 8 then BitsOf(r.water, 32)[j - 3]
    else if j < 13 then AlcoholBits(r.levels, DECODE_ORDER)[j]
    else if j < 22 then SizeBits(LevelsOf(r.levels, Present(r.levels, DECODE_ORDER)))[j]
    else BitsOf(r.drinkId, 32)[j - 22]
  }

  /** `w` holds `r` in the layout the decoder reads. */
  predicate Carries(w: Word, r: Recipe)
    requires Complete(r.levels) && 0 <= r.drinkId
  {
    forall j :: 0 <= j < 32 ==> w[j] == LayoutBit(r, j)
  }

  /** The bits of `Encode(r)` follow the layout when the level fields stay below bit 22. */
  lemma EncodeAt(r: Recipe, j: nat)
    requires Packable(r) && j < 32
    ensures Encode(r)[j] == LayoutBit(r, j)
  {
    var values := LevelsOf(r.levels, Present(r.levels, DECODE_ORDER));
    AlcoholBitsOf(r.levels, Tequila, j);
    if j < 13 || 22 <= j {
      SizeBitsOutside(values, j);
    }
    PackAt(r.glass, AlcoholBits(r.levels, DECODE_ORDER), SizeBits(values), r.water, r.drinkId, j);
  }

  lemma EncodeCarries(r: Recipe)
    requires Packable(r)
    ensures Carries(Encode(r), r)
  {
    forall j | 0 <= j < 32
      ensures Encode(r)[j] == LayoutBit(r, j)
    {
      EncodeAt(r, j);
    }
  }

  lemma CarriedGlass(w: Word, r: Recipe)
    requires Packable(r) && Carries(w, r)
    ensures DecodeGlass(w) == Ok(r.glass)
  {
    assert w[1] == LayoutBit(r, 1) && w[2] == LayoutBit(r, 2);
  }

  lemma CarriedWater(w: Word, r: Recipe)
    requires Packable(r) && Carries(w, r)
    ensures Field(w, 3, 5) == r.water
  {
    forall i | 0 <= i < 5
      ensures w[3 + i] == BitsOf(r.water, 32)[i]
    {
      assert w[3 + i] == LayoutBit(r, 3 + i);
    }
    assert Pow2(5) == 32;
    FieldOf(w, 3, 5, r.water);
  }

  lemma CarriedDrinkId(w: Word, r: Recipe)
    requires Packable(r) && Carries(w, r)
    ensures Field(w, 22, 9) == r.drinkId % 512
  {
    forall i | 0 <= i < 9
      ensures w[22 + i] == BitsOf(r.drinkId, 32)[i]
    {
      assert w[22 + i] == LayoutBit(r, 22 + i);
    }
    assert Pow2(9) == 512 by {
      assert Pow2(5) == 32;
    }
    FieldOf(w, 22, 9, r.drinkId);
  }

  lemma CarriedFlags(w: Word, r: Recipe)
    requires Packable(r) && Carries(w, r)
    ensures Flagged(w, DECODE_ORDER) == Present(r.levels, DECODE_ORDER)
  {
    forall a | a in DECODE_ORDER
      ensures w[PresenceBit(a)] == (r.levels[a] > 0)
    {
      assert w[PresenceBit(a)] == LayoutBit(r, PresenceBit(a));
      AlcoholBitsOf(r.levels, a, 0);
    }
    FlaggedPresent(w, r.levels, DECODE_ORDER);
  }

  /** The values `sizeBits` packs for a recipe: at most three, none zero. */
  lemma PresentValues(r: Recipe)
    requires Packable(r)
    ensures var values := LevelsOf(r.levels, Present(r.levels, DECODE_ORDER));
      |values| <= 3 && forall k :: 0 <= k < |values| ==> values[k] >= 1
  {
    var p := Present(r.levels, DECODE_ORDER);
    forall k | 0 <= k < |p|
      ensures r.levels[p[k]] >= 1
    {
      assert p[k] in p;
    }
  }

  /** A word that agrees with `SizeBits(values)` on the level fields reads each value back. */
  lemma LevelFieldOf(w: Word, values: seq<Level>, i: nat)
    requires |values| <= 3 && i < |values|
    requires forall k :: 0 <= k < |values| ==> values[k] >= 1
    requires forall j :: 13 <= j < 22 ==> w[j] == SizeBits(values)[j]
    ensures Field(w, 13 + 3 * i, 3) + 1 == values[i]
  {
    var v := values[i] as int - 1;
    forall t | 0 <= t < 3
      ensures w[13 + 3 * i + t] == BitsOf(v, 32)[t]
    {
      SizeBitsField(values, i, t);
    }
    assert Pow2(3) == 8;
    FieldOf(w, 13 + 3 * i, 3, v);
  }

  /** A word whose level fields hold the levels of `present` decodes each liquor to its level. */
  lemma LevelInFields(w: Word, levels: map<Alcohol, Level>, present: seq<Alcohol>, a: Alcohol)
    requires Complete(levels) && |present| <= 3
    requires forall b :: b in present <==> b in DECODE_ORDER && levels[b] > 0
    requires forall i :: 0 <= i < |present| ==> Field(w, 13 + 3 * i, 3) + 1 == levels[present[i]]
    ensures LevelIn(w, present, a) == levels[a]
  {
    Listed(a);
    var i := IndexOf(present, a);
    if i >= 0 {
      assert present[i] == a;
    }
  }

  lemma CarriedLevels(w: Word, r: Recipe, a: Alcohol)
    requires Packable(r) && Carries(w, r)
    ensures DecodedLevel(w, a) == r.levels[a]
  {
    var p := Present(r.levels, DECODE_ORDER);
    var values := LevelsOf(r.levels, p);
    CarriedFlags(w, r);
    PresentValues(r);
    forall j | 13 <= j < 22
      ensures w[j] == SizeBits(values)[j]
    {
      assert w[j] == LayoutBit(r, j);
    }
    forall i | 0 <= i < |p|
      ensures Field(w, 13 + 3 * i, 3) + 1 == r.levels[p[i]]
    {
      LevelFieldOf(w, values, i);
    }
    LevelInFields(w, r.levels, p, a);
  }

  /** Every word in the layout of a recipe decodes to that recipe, with the drink id cut to nine bits. */
  lemma DecodeCarried(w: Word, r: Recipe)
    requires Packable(r) && Carries(w, r)
    ensures Decode(w) == Ok(r.(drinkId := r.drinkId % 512))
  {
    CarriedGlass(w, r);
    CarriedWater(w, r);
    CarriedDrinkId(w, r);
    var levels := map a | a in DECODE_ORDER :: DecodedLevel(w, a);
    assert levels == r.levels by {
      forall a: Alcohol
        ensures a in levels && levels[a] == r.levels[a]
      {
        Listed(a);
        CarriedLevels(w, r, a);
      }
    }
  }

  lemma DecodeCarriedValid(w: Word, r: Recipe)
    requires ValidRecipe(r) && Carries(w, r)
    ensures Decode(w) == Ok(r)
  {
    DecodeCarried(w, r);
    DivModUnique(r.drinkId, 512, 0, r.drinkId);
    assert r.(drinkId := r.drinkId % 512) == r;
  }

  /** Every recipe the screen can produce comes back unchanged from the decoder. */
  lemma DecodeEncode(r: Recipe)
    requires ValidRecipe(r)
    ensures Decode(Encode(r)) == Ok(r)
  {
    EncodeCarries(r);
    DecodeCarriedValid(Encode(r), r);
  }

  /** The same round trip through the `Int` the getter returns and the next scan reads. */
  lemma BarcodeRoundTrip(r: Recipe)
    requires ValidRecipe(r)
    ensures 0 <= IntOf(Encode(r)) && IntOf(Encode(r)) % 2 == 1
    ensures Decode(WordOf(IntOf(Encode(r)))) == Ok(r)
  {
    WordOfIntOf(Encode(r));
    DecodeEncode(r);
    EncodeAt(r, 0);
    EncodeAt(r, 31);
    BitsOfHigh(r.drinkId, 32, 9, 9) by {
      assert Pow2(9) == 512 by {
        assert Pow2(5) == 32;
      }
    }
    SignAndParity(Encode(r));
  }

  /**
   * With the corrected getter, a recipe from the details screen, printed as a
   * barcode and read back by the scanner at any scale with quiet zones wider than
   * the widest bar, comes back unchanged.
   */
  lemma PrintScanRoundTripCorrected(r: Recipe, k: nat, left: nat, right: nat)
    requires ValidRecipe(r) && k >= 1 && left > 4 * k && right > 4 * k
    ensures var code := IntOf(Encode(r));
      Code128.TryParse(Code128.Intervals(code)) == Some(code) &&
      Code128Analyzer.DecodeRow(Code128Analyzer.PrintedRow(code, k, left, right)) == Some(code) &&
      Decode(WordOf(code)) == Ok(r)
  {
    var code := IntOf(Encode(r));
    BarcodeRoundTrip(r);
    Code128.RoundTrip(code);
    Code128Analyzer.PrintedRowDecodes(code, k, left, right);
  }

  // ---------------------------------------------------------------------
  // The drink id the screen accepts
  // ---------------------------------------------------------------------

  /** The drink-id field's check on the details screen: ten bits, although its message says up to 511. */
  predicate DrinkIdAcceptedAsWritten(id: int)
  {
    0 <= id <= 1023
  }

  /**
   * A drink id the screen accepts but nine bits cannot hold loses its top bit
   * on the way back, turns the barcode number negative, and the barcode drawn
   * for it is the barcode of 0.
   */
  lemma DrinkIdBeyondNineBits(r: Recipe)
    requires Packable(r) && DrinkIdAcceptedAsWritten(r.drinkId) && !DrinkIdAccepted(r.drinkId)
    ensures Decode(Encode(r)) == Ok(r.(drinkId := r.drinkId - 512))
    ensures IntOf(Encode(r)) < 0
    ensures Code128.Intervals(IntOf(Encode(r))) == Code128.Intervals(0)
  {
    EncodeCarries(r);
    DecodeCarried(Encode(r), r);
    DivModUnique(r.drinkId, 512, 1, r.drinkId - 512);
    assert Encode(r)[31] == LayoutBit(r, 31);
    assert Pow2(9) == 512 by {
      assert Pow2(5) == 32;
    }
    TopBit(r.drinkId, 9);
    SignAndParity(Encode(r));
    Code128.NegativeDrawsZero(IntOf(Encode(r)));
  }

  // ---------------------------------------------------------------------
  // The getter as written: presence bits and level fields in map order
  // ---------------------------------------------------------------------

  /** A declaration order of the five liquors, which the sorted map follows. */
  predicate IsEnumOrder(order: seq<Alcohol>)
  {
    |order| == 5 && Distinct(order)
  }

  /** The values `sizeBits` packs for `order`: none zero. */
  lemma PresentValuesIn(levels: map<Alcohol, Level>, order: seq<Alcohol>)
    requires Complete(levels)
    ensures var values := LevelsOf(levels, Present(levels, order));
      |values| <= |order| && forall k :: 0 <= k < |values| ==> values[k] >= 1
  {
    var p := Present(levels, order);
    forall k | 0 <= k < |p|
      ensures levels[p[k]] >= 1
    {
      assert p[k] in p;
    }
  }

  /** The bits of the getter as written that the counterexamples read. */
  lemma AsWrittenGlassAt(order: seq<Alcohol>, r: Recipe, j: nat)
    requires IsEnumOrder(order) && Complete(r.levels) && 0 <= r.drinkId && 1 <= j < 3
    ensures EncodeAsWritten(order, r)[j] == ((j == 1 && r.glass == Highball) || (j == 2 && r.glass == Shaker))
  {
    AsWrittenAt(order, r, j);
  }

  lemma AsWrittenFlagAt(order: seq<Alcohol>, r: Recipe, j: nat)
    requires IsEnumOrder(order) && Complete(r.levels) && 0 <= r.drinkId && 8 <= j < 13
    ensures EncodeAsWritten(order, r)[j] == (r.levels[order[j - 8]] > 0)
  {
    AsWrittenAt(order, r, j);
  }

  lemma AsWrittenSizeAt(order: seq<Alcohol>, r: Recipe, j: nat)
    requires IsEnumOrder(order) && Complete(r.levels) && 0 <= r.drinkId && 13 <= j < 22
    ensures EncodeAsWritten(order, r)[j] == SizeBits(LevelsOf(r.levels, Present(r.levels, order)))[j]
  {
    AsWrittenAt(order, r, j);
  }

  lemma AsWrittenAt(order: seq<Alcohol>, r: Recipe, j: nat)
    requires IsEnumOrder(order) && Complete(r.levels) && 0 <= r.drinkId && j < 22
    ensures 1 <= j < 3 ==>
      EncodeAsWritten(order, r)[j] == ((j == 1 && r.glass == Highball) || (j == 2 && r.glass == Shaker))
    ensures 8 <= j < 13 ==> EncodeAsWritten(order, r)[j] == (r.levels[order[j - 8]] > 0)
    ensures 13 <= j ==>
      EncodeAsWritten(order, r)[j] == SizeBits(LevelsOf(r.levels, Present(r.levels, order)))[j]
  {
    var ab := AlcoholBitsAsWritten(r.levels, order);
    var values := LevelsOf(r.levels, Present(r.levels, order));
    AlcoholBitsAsWrittenAt(r.levels, order, j);
    PresentValuesIn(r.levels, order);
    if j < 13 {
      SizeBitsOutside(values, j);
    }
    PackAt(r.glass, ab, SizeBits(values), r.water, r.drinkId, j);
  }

  /** A declaration order names every liquor. */
  lemma EnumOrderListsAll(order: seq<Alcohol>, a: Alcohol)
    requires IsEnumOrder(order)
    ensures a in order
  {
    assert order[0] == a || order[1] == a || order[2] == a || order[3] == a || order[4] == a;
  }

  /** The liquors of `order` with a level above zero, as a set. */
  function PresentSet(levels: map<Alcohol, Level>, order: seq<Alcohol>): set<Alcohol>
    requires Complete(levels)
  {
    set a | a in order && levels[a] > 0
  }

  lemma PresentSetSplit(levels: map<Alcohol, Level>, order: seq<Alcohol>)
    requires Complete(levels) && order != [] && order[0] !in order[1..]
    ensures |PresentSet(levels, order)| == (if levels[order[0]] > 0 then 1 else 0) + |PresentSet(levels, order[1..])|
  {
    var h := if levels[order[0]] > 0 then {order[0]} else {};
    var t := PresentSet(levels, order[1..]);
    assert PresentSet(levels, order) == h + t;
    assert h * t == {};
  }

  /** Over an order without repeats, `filter` keeps one entry per present liquor. */
  lemma {:induction false} PresentCard(levels: map<Alcohol, Level>, order: seq<Alcohol>)
    requires Complete(levels) && Distinct(order)
    ensures |Present(levels, order)| == |PresentSet(levels, order)|
  {
    if order != [] {
      DistinctTail(order);
      PresentCard(levels, order[1..]);
      PresentSetSplit(levels, order);
    }
  }

  /** The getter as written packs as many level fields as there are liquors, whatever the declaration order. */
  lemma PresentLength(levels: map<Alcohol, Level>, order: seq<Alcohol>)
    requires Complete(levels) && IsEnumOrder(order)
    ensures |Present(levels, order)| == Count(levels)
  {
    DecodeOrderDistinct();
    PresentCard(levels, order);
    PresentCard(levels, DECODE_ORDER);
    assert PresentSet(levels, order) == PresentSet(levels, DECODE_ORDER) by {
      forall a: Alcohol
        ensures a in order && a in DECODE_ORDER
      {
        EnumOrderListsAll(order, a);
        Listed(a);
      }
    }
  }

  /**
   * Outside the liquor bits the getter as written follows the decoder's layout:
   * bit 0, the glass and the water always, and the drink id when at most three
   * level fields keep below bit 22.
   */
  lemma AsWrittenLayoutAt(order: seq<Alcohol>, r: Recipe, j: nat)
    requires IsEnumOrder(order) && Complete(r.levels) && 0 <= r.drinkId && j < 32
    requires j < 8 || (22 <= j && Count(r.levels) <= 3)
    ensures EncodeAsWritten(order, r)[j] == LayoutBit(r, j)
  {
    var values := LevelsOf(r.levels, Present(r.levels, order));
    AlcoholBitsAsWrittenAt(r.levels, order, j);
    PresentValuesIn(r.levels, order);
    PresentLength(r.levels, order);
    SizeBitsOutside(values, j);
    PackAt(r.glass, AlcoholBitsAsWritten(r.levels, order), SizeBits(values), r.water, r.drinkId, j);
  }

  /**
   * What the getter as written does carry: the number is odd, it decodes without
   * error to the recipe's glass and water level and, with at most three liquors, to
   * its drink id cut to nine bits; with a nine-bit drink id the number is not negative.
   */
  lemma AsWrittenCarries(order: seq<Alcohol>, r: Recipe)
    requires IsEnumOrder(order) && Complete(r.levels) && 0 <= r.drinkId
    ensures var code := IntOf(EncodeAsWritten(order, r));
      code % 2 == 1 && Decode(WordOf(code)).Ok? &&
      Decode(WordOf(code)).value.glass == r.glass && Decode(WordOf(code)).value.water == r.water
    ensures var code := IntOf(EncodeAsWritten(order, r));
      Count(r.levels) <= 3 ==> Decode(WordOf(code)).value.drinkId == r.drinkId % 512
    ensures ValidRecipe(r) ==> 0 <= IntOf(EncodeAsWritten(order, r))
  {
    var w := EncodeAsWritten(order, r);
    WordOfIntOf(w);
    SignAndParity(w);
    AsWrittenLayoutAt(order, r, 0);
    AsWrittenGlass(order, r);
    AsWrittenWater(order, r);
    if Count(r.levels) <= 3 {
      AsWrittenDrinkId(order, r);
    }
  }

  lemma AsWrittenGlass(order: seq<Alcohol>, r: Recipe)
    requires IsEnumOrder(order) && Complete(r.levels) && 0 <= r.drinkId
    ensures DecodeGlass(EncodeAsWritten(order, r)) == Ok(r.glass)
  {
    AsWrittenLayoutAt(order, r, 1);
    AsWrittenLayoutAt(order, r, 2);
  }

  lemma AsWrittenWater(order: seq<Alcohol>, r: Recipe)
    requires IsEnumOrder(order) && Complete(r.levels) && 0 <= r.drinkId
    ensures Field(EncodeAsWritten(order, r), 3, 5) == r.water
  {
    var w := EncodeAsWritten(order, r);
    forall i | 0 <= i < 5
      ensures w[3 + i] == BitsOf(r.water, 32)[i]
    {
      AsWrittenLayoutAt(order, r, 3 + i);
    }
    assert Pow2(5) == 32;
    FieldOf(w, 3, 5, r.water);
  }

  lemma AsWrittenDrinkId(order: seq<Alcohol>, r: Recipe)
    requires IsEnumOrder(order) && Complete(r.levels) && 0 <= r.drinkId && Count(r.levels) <= 3
    ensures Field(EncodeAsWritten(order, r), 22, 9) == r.drinkId % 512
    ensures r.drinkId < 512 ==> !EncodeAsWritten(order, r)[31]
  {
    var w := EncodeAsWritten(order, r);
    forall i | 0 <= i < 9
      ensures w[22 + i] == BitsOf(r.drinkId, 32)[i]
    {
      AsWrittenLayoutAt(order, r, 22 + i);
    }
    assert Pow2(9) == 512 by {
      assert Pow2(5) == 32;
    }
    FieldOf(w, 22, 9, r.drinkId);
    AsWrittenLayoutAt(order, r, 31);
    if r.drinkId < 512 {
      BitsOfHigh(r.drinkId, 32, 9, 9);
    }
  }

  /**
   * The number the getter as written returns for a recipe from the details screen,
   * printed as a barcode and read back by the scanner at any scale with quiet zones
   * wider than the widest bar, is the same number, and it decodes to the recipe's
   * glass, water level and drink id.
   */
  lemma PrintScanRoundTrip(order: seq<Alcohol>, r: Recipe, k: nat, left: nat, right: nat)
    requires IsEnumOrder(order) && ValidRecipe(r) && k >= 1 && left > 4 * k && right > 4 * k
    ensures var code := IntOf(EncodeAsWritten(order, r));
      Code128.TryParse(Code128.Intervals(code)) == Some(code) &&
      Code128Analyzer.DecodeRow(Code128Analyzer.PrintedRow(code, k, left, right)) == Some(code)
    ensures var rescanned := Decode(WordOf(IntOf(EncodeAsWritten(order, r))));
      rescanned.Ok? && rescanned.value.glass == r.glass && rescanned.value.water == r.water &&
      rescanned.value.drinkId == r.drinkId
  {
    var code := IntOf(EncodeAsWritten(order, r));
    AsWrittenCarries(order, r);
    DivModUnique(r.drinkId, 512, 0, r.drinkId);
    Code128.RoundTrip(code);
    Code128Analyzer.PrintedRowDecodes(code, k, left, right);
  }

  lemma FiveKeys(levels: map<Alcohol, Level>)
    requires Tequila in levels && Vodka in levels && Gin in levels && Rum in levels && Whiskey in levels
    ensures Complete(levels)
  {
    forall a: Alcohol
      ensures a in levels
    {
      match a
      case Tequila =>
      case Vodka =>
      case Gin =>
      case Rum =>
      case Whiskey =>
    }
  }

  /** All levels zero but the one of `a`, which is 1. */
  function Single(a: Alcohol): (levels: map<Alcohol, Level>)
    ensures Complete(levels) && levels[a] == 1
    ensures forall b :: b != a ==> levels[b] == 0
  {
    var levels := map[Tequila := 0, Vodka := 0, Gin := 0, Rum := 0, Whiskey := 0][a := 1];
    FiveKeys(levels);
    levels
  }

  lemma {:induction false} PresentEmpty(levels: map<Alcohol, Level>, order: seq<Alcohol>)
    requires Complete(levels)
    requires forall b :: b in order ==> levels[b] == 0
    ensures Present(levels, order) == []
  {
    if order != [] {
      assert order[0] in order;
      PresentEmpty(levels, order[1..]);
    }
  }

  lemma {:induction false} PresentAtMostOne(levels: map<Alcohol, Level>, order: seq<Alcohol>, a: Alcohol)
    requires Complete(levels) && Distinct(order)
    requires forall b :: b in order && b != a ==> levels[b] == 0
    ensures |Present(levels, order)| <= 1
  {
    if order != [] {
      var rest := order[1..];
      DistinctTail(order);
      if levels[order[0]] > 0 {
        forall b | b in rest
          ensures levels[b] == 0
        {
          var k :| 0 <= k < |rest| && rest[k] == b;
          assert order[k + 1] == b;
        }
        PresentEmpty(levels, rest);
      } else {
        PresentAtMostOne(levels, rest, a);
      }
    }
  }

  lemma DistinctTail(order: seq<Alcohol>)
    requires Distinct(order) && order != []
    ensures Distinct(order[1..]) && order[0] !in order[1..]
  {
    var rest := order[1..];
    forall i, j | 0 <= i < j < |rest|
      ensures rest[i] != rest[j]
    {
      assert rest[i] == order[i + 1] && rest[j] == order[j + 1];
    }
    forall k | 0 <= k < |rest|
      ensures rest[k] != order[0]
    {
      assert rest[k] == order[k + 1];
    }
  }

  /** With only `a` and `b` above zero, at most two liquors are present. */
  lemma {:induction false} PresentAtMostTwo(levels: map<Alcohol, Level>, order: seq<Alcohol>, a: Alcohol, b: Alcohol)
    requires Complete(levels) && Distinct(order)
    requires forall c :: c != a && c != b ==> levels[c] == 0
    ensures |Present(levels, order)| <= 2
  {
    if order != [] {
      var rest := order[1..];
      DistinctTail(order);
      if levels[order[0]] > 0 {
        var other := if order[0] == a then b else a;
        PresentAtMostOne(levels, rest, other);
      } else {
        PresentAtMostTwo(levels, rest, a, b);
      }
    }
  }

  /** A word with a Lowball glass and the presence bit of `a` clear decodes with no `a`. */
  lemma MissingFlag(w: Word, a: Alcohol)
    requires !w[1] && !w[2] && !w[PresenceBit(a)]
    ensures Decode(w).Ok? && Decode(w).value.levels[a] == 0
  {
    Listed(a);
    assert a !in Flagged(w, DECODE_ORDER);
  }

  /**
   * When the liquor at map position `idx` does not own presence bit
   * `8 + idx`, a recipe with only that liquor decodes without it.
   */
  lemma LostSingle(order: seq<Alcohol>, idx: nat)
    requires IsEnumOrder(order) && idx < 5 && PresenceBit(order[idx]) != 8 + idx
    ensures var r := Recipe(Single(order[idx]), 0, Lowball, 0);
      ValidRecipe(r) && Decode(EncodeAsWritten(order, r)).Ok? &&
      Decode(EncodeAsWritten(order, r)).value.levels[order[idx]] == 0
  {
    var a := order[idx];
    var r := Recipe(Single(a), 0, Lowball, 0);
    DecodeOrderDistinct();
    PresentAtMostOne(r.levels, DECODE_ORDER, a);
    var j := PresenceBit(a);
    AsWrittenGlassAt(order, r, 1);
    AsWrittenGlassAt(order, r, 2);
    AsWrittenFlagAt(order, r, j);
    assert order[j - 8] != a;
    MissingFlag(EncodeAsWritten(order, r), a);
  }

  /** The levels of a Gin-and-Vodka recipe: Gin 1, Vodka 2. */
  function GinAndVodka(): (levels: map<Alcohol, Level>)
    ensures Complete(levels) && levels[Gin] == 1 && levels[Vodka] == 2
    ensures forall c :: c != Gin && c != Vodka ==> levels[c] == 0
  {
    Single(Gin)[Vodka := 2]
  }

  /** A word with a Lowball glass, Tequila's bit clear, Vodka's set and a first level field of 0 decodes Vodka at level 1. */
  lemma VodkaReadsFirstField(w: Word)
    requires !w[1] && !w[2] && w[10] && !w[11] && Field(w, 13, 3) == 0
    ensures Decode(w).Ok? && Decode(w).value.levels[Vodka] == 1
  {
    var rest := DECODE_ORDER[1..];
    assert DECODE_ORDER[0] == Tequila && rest[0] == Vodka;
    assert Flagged(w, DECODE_ORDER) == Flagged(w, rest);
    assert Flagged(w, rest) == [Vodka] + Flagged(w, rest[1..]);
    assert IndexOf(Flagged(w, DECODE_ORDER), Vodka) == 0;
    Listed(Vodka);
  }

  /** The getter as written packs the level of the first liquor of the declaration order into the first level field. */
  lemma FirstFieldAsWritten(order: seq<Alcohol>, r: Recipe, t: nat)
    requires IsEnumOrder(order) && Complete(r.levels) && 0 <= r.drinkId && r.levels[order[0]] > 0 && t < 3
    ensures EncodeAsWritten(order, r)[13 + t] == BitsOf(r.levels[order[0]] as int - 1, 32)[t]
  {
    AsWrittenSizeAt(order, r, 13 + t);
    FirstFieldOf(EncodeAsWritten(order, r), r.levels, order, t);
  }

  lemma FirstFieldOf(w: Word, levels: map<Alcohol, Level>, order: seq<Alcohol>, t: nat)
    requires Complete(levels) && |order| == 5 && levels[order[0]] > 0 && t < 3
    requires w[13 + t] == SizeBits(LevelsOf(levels, Present(levels, order)))[13 + t]
    ensures w[13 + t] == BitsOf(levels[order[0]] as int - 1, 32)[t]
  {
    var values := LevelsOf(levels, Present(levels, order));
    assert |values| > 0 && values[0] == levels[order[0]] by {
      PresentHead(levels, order);
    }
    assert |values| <= 5 && forall k :: 0 <= k < |values| ==> values[k] >= 1 by {
      PresentValuesIn(levels, order);
    }
    SizeBitsFirstField(values, t);
  }

  lemma SizeBitsFirstField(values: seq<Level>, t: nat)
    requires 0 < |values| <= 6 && t < 3
    requires forall k :: 0 <= k < |values| ==> values[k] >= 1
    ensures SizeBits(values)[13 + t] == BitsOf(values[0] as int - 1, 32)[t]
  {
    SizeBitsUpToField(values, |values|, 0, t);
  }

  lemma PresentHead(levels: map<Alcohol, Level>, order: seq<Alcohol>)
    requires Complete(levels) && order != [] && levels[order[0]] > 0
    ensures var values := LevelsOf(levels, Present(levels, order)); |values| > 0 && values[0] == levels[order[0]]
  {
    assert Present(levels, order)[0] == order[0];
  }

  /** Gin 1 with Vodka 2 is a recipe the screen accepts. */
  lemma GinAndVodkaValid()
    ensures ValidRecipe(Recipe(GinAndVodka(), 0, Lowball, 0))
  {
    DecodeOrderDistinct();
    PresentAtMostTwo(GinAndVodka(), DECODE_ORDER, Gin, Vodka);
  }

  /**
   * When Gin and Vodka both sit where their presence bits expect them, the getter as written still
   * puts Gin's level field first, and the decoder reads it as Vodka's.
   */
  lemma LostPair(order: seq<Alcohol>)
    requires IsEnumOrder(order) && order[0] == Gin && order[2] == Vodka
    ensures var r := Recipe(GinAndVodka(), 0, Lowball, 0);
      Decode(EncodeAsWritten(order, r)).Ok? && Decode(EncodeAsWritten(order, r)).value.levels[Vodka] == 1
  {
    var r := Recipe(GinAndVodka(), 0, Lowball, 0);
    var w := EncodeAsWritten(order, r);
    forall t | 0 <= t < 3
      ensures w[13 + t] == BitsOf(0, 32)[t]
    {
      FirstFieldAsWritten(order, r, t);
    }
    FieldOf(w, 13, 3, 0);
    AsWrittenGlassAt(order, r, 1);
    AsWrittenGlassAt(order, r, 2);
    AsWrittenFlagAt(order, r, 10);
    AsWrittenFlagAt(order, r, 11);
    assert order[3] != Gin && order[3] != Vodka;
    VodkaReadsFirstField(w);
  }

  /** No declaration order of the liquors lets every screen recipe survive the getter as written. */
  lemma EncodeAsWrittenLoses(order: seq<Alcohol>)
    requires IsEnumOrder(order)
    ensures exists r :: ValidRecipe(r) && Decode(EncodeAsWritten(order, r)) != Ok(r)
  {
    if idx :| 0 <= idx < 5 && PresenceBit(order[idx]) != 8 + idx {
      LostSingle(order, idx);
      var r := Recipe(Single(order[idx]), 0, Lowball, 0);
      assert ValidRecipe(r) && Decode(EncodeAsWritten(order, r)) != Ok(r);
    } else {
      assert PresenceBit(order[0]) == 8 && PresenceBit(order[2]) == 10;
      PresenceBitInjective(order[0], Gin);
      PresenceBitInjective(order[2], Vodka);
      LostPair(order);
      GinAndVodkaValid();
      var r := Recipe(GinAndVodka(), 0, Lowball, 0);
      assert ValidRecipe(r) && Decode(EncodeAsWritten(order, r)) != Ok(r);
    }
  }
}
