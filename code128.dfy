/**
 * The barcode symbology: a fixed table of 106 six-element width patterns
 * (the Code 128 symbol characters 0..105), a decoder `TryParse` from a list
 * of module widths to an `Int`, and an encoder `ToIntervals` from an `Int`
 * to module widths.
 *
 * The framing is the application's own, not the standard's: no start
 * character, the check sum starts from 2, five data symbols (base-100
 * digits of the value, most significant first), one check symbol, and a
 * single trailing width of 2.
 */
module Code128 {
  import opened Wrappers
  import opened Int32Math
  import opened Code128Table
  import Int32Bits

  const CHECK_START: int := 2
  const CHECK_MODULUS: int := 103
  /** The single width appended after the six symbols. */
  const STOP_WIDTH: int := 2

  // ---------------------------------------------------------------------
  // Digits and folds
  // ---------------------------------------------------------------------

  /** Digits of `n` in `base`, least significant first, as `while (n > 0) { yield(n % base); n /= base }` produces them. */
  function DigitsLsb(n: int, base: int): seq<int>
    requires base >= 2
    decreases if n > 0 then n else 0
  {
    if n <= 0 then [] else [n % base] + DigitsLsb(n / base, base)
  }

  /** The number whose digits, least significant first, are `d`. */
  function ValueLsb(d: seq<int>, base: int): int
  {
    if d == [] then 0 else d[0] + base * ValueLsb(d[1..], base)
  }

  /** `fold(0) { a, d -> a * base + d }` in exact arithmetic. */
  function Fold(s: seq<int>, base: int): int
  {
    if s == [] then 0 else Fold(s[..|s| - 1], base) * base + s[|s| - 1]
  }

  /** The same fold on Kotlin `Int`, which wraps around on overflow. */
  function FoldInt(s: seq<int>, base: int): Int32
  {
    if s == [] then 0 else Wrap(FoldInt(s[..|s| - 1], base) * base + s[|s| - 1])
  }

  function Reverse(s: seq<int>): (r: seq<int>)
    ensures |r| == |s|
    ensures forall i :: 0 <= i < |s| ==> r[i] == s[|s| - 1 - i]
  {
    if s == [] then [] else Reverse(s[1..]) + [s[0]]
  }

  function Sum(s: seq<int>): int
  {
    if s == [] then 0 else Sum(s[..|s| - 1]) + s[|s| - 1]
  }

  lemma {:induction false} DigitsLsbValue(n: int, base: int)
    requires base >= 2 && n >= 0
    ensures ValueLsb(DigitsLsb(n, base), base) == n
    ensures forall i :: 0 <= i < |DigitsLsb(n, base)| ==> 0 <= DigitsLsb(n, base)[i] < base
    decreases n
  {
    if n > 0 {
      DigitsLsbValue(n / base, base);
    }
  }

  function Pow(b: int, k: nat): int
  {
    if k == 0 then 1 else b * Pow(b, k - 1)
  }

  lemma {:induction false} DigitsLsbShort(n: int, base: int, k: nat)
    requires base >= 2 && 0 <= n < Pow(base, k)
    ensures |DigitsLsb(n, base)| <= k
    decreases k
  {
    if n > 0 {
      assert k > 0;
      assert n / base < Pow(base, k - 1) by {
        assert n < base * Pow(base, k - 1);
        assert (n / base) * base <= n;
      }
      DigitsLsbShort(n / base, base, k - 1);
    }
  }

  lemma {:induction false} FoldReverse(d: seq<int>, base: int)
    ensures Fold(Reverse(d), base) == ValueLsb(d, base)
  {
    if d != [] {
      var r := Reverse(d);
      assert r[..|r| - 1] == Reverse(d[1..]);
      FoldReverse(d[1..], base);
    }
  }

  lemma {:induction false} FoldNonNegative(s: seq<int>, base: int)
    requires base >= 1 && forall i :: 0 <= i < |s| ==> s[i] >= 0
    ensures Fold(s, base) >= 0
    ensures s != [] ==> Fold(s[..|s| - 1], base) <= Fold(s, base)
  {
    if s != [] {
      var p := s[..|s| - 1];
      FoldNonNegative(p, base);
      assert Fold(p, base) * base >= Fold(p, base);
    }
  }

  /** The `Int` fold agrees with the exact fold as long as the exact result fits in an `Int`. */
  lemma {:induction false} FoldIntExact(s: seq<int>, base: int)
    requires base >= 1 && forall i :: 0 <= i < |s| ==> s[i] >= 0
    requires Fold(s, base) <= MAX
    ensures FoldInt(s, base) == Fold(s, base)
  {
    if s != [] {
      FoldNonNegative(s, base);
      FoldIntExact(s[..|s| - 1], base);
    }
  }

  // ---------------------------------------------------------------------
  // Symbol widths
  // ---------------------------------------------------------------------

  lemma SumSix(s: seq<int>)
    requires |s| == 6
    ensures Sum(s) == s[0] + s[1] + s[2] + s[3] + s[4] + s[5]
  {
    assert s[..5][..4][..3][..2][..1][..0] == [];
    assert Sum(s[..1]) == s[0];
    assert Sum(s[..2]) == s[0] + s[1] by { assert s[..2][..1] == s[..1]; }
    assert Sum(s[..3]) == s[0] + s[1] + s[2] by { assert s[..3][..2] == s[..2]; }
    assert Sum(s[..4]) == s[0] + s[1] + s[2] + s[3] by { assert s[..4][..3] == s[..3]; }
    assert Sum(s[..5]) == s[0] + s[1] + s[2] + s[3] + s[4] by { assert s[..5][..4] == s[..4]; }
  }

  lemma SixDigits(e: int)
    requires 100000 <= e < 1000000
    ensures DigitsLsb(e, 10) == [e % 10, (e / 10) % 10, (e / 100) % 10, (e / 1000) % 10, (e / 10000) % 10, e / 100000]
  {
    var q1, q2, q3, q4, q5 := e / 10, e / 100, e / 1000, e / 10000, e / 100000;
    assert q1 / 10 == q2 && q2 / 10 == q3 && q3 / 10 == q4 && q4 / 10 == q5 && q5 / 10 == 0;
    assert DigitsLsb(q5, 10) == [q5];
    assert DigitsLsb(q4, 10) == [q4 % 10, q5];
    assert DigitsLsb(q3, 10) == [q3 % 10, q4 % 10, q5];
    assert DigitsLsb(q2, 10) == [q2 % 10, q3 % 10, q4 % 10, q5];
    assert DigitsLsb(q1, 10) == [q1 % 10, q2 % 10, q3 % 10, q4 % 10, q5];
  }

  /** The widths of a table entry: its decimal digits, most significant first. */
  function Widths(e: int): seq<int>
  {
    Reverse(DigitsLsb(e, 10))
  }

  lemma WidthsOfSixDigits(e: int)
    requires 100000 <= e < 1000000
    ensures Widths(e) == [e / 100000, (e / 10000) % 10, (e / 1000) % 10, (e / 100) % 10, (e / 10) % 10, e % 10]
  {
    SixDigits(e);
  }

  /** Folding the widths of a non-negative `Int` back in base 10 gives it back. */
  lemma WidthsFold(e: Int32)
    requires e >= 0
    ensures FoldInt(Widths(e), 10) == e
  {
    DigitsLsbValue(e, 10);
    FoldReverse(DigitsLsb(e, 10), 10);
    FoldIntExact(Widths(e), 10);
  }

  /**
   * A well-formed entry has six widths, each in 1..4, summing to 11, and
   * folding the widths back in base 10 on `Int` gives the entry.
   */
  lemma EntryWidths(e: int)
    requires WellFormedEntry(e)
    ensures |Widths(e)| == 6
    ensures forall i :: 0 <= i < 6 ==> 1 <= Widths(e)[i] <= 4
    ensures Sum(Widths(e)) == 11
    ensures FoldInt(Widths(e), 10) == e
  {
    WidthsOfSixDigits(e);
    SumSix(Widths(e));
    WidthsFold(e);
  }

  /** The widths of symbol `v`: `LEGAL_CODES_128[v]` split into digits, most significant first. */
  function Bars(v: int): seq<int>
    requires 0 <= v < SYMBOL_COUNT
  {
    Widths(LegalCode(v))
  }

  /** Every symbol of the table has six widths in 1..4 over 11 modules, and decodes back to itself. */
  lemma BarsShape(v: int)
    requires 0 <= v < SYMBOL_COUNT
    ensures |Bars(v)| == 6
    ensures forall i :: 0 <= i < 6 ==> 1 <= Bars(v)[i] <= 4
    ensures Sum(Bars(v)) == 11
    ensures CodeToValue(FoldInt(Bars(v), 10)) == Some(v)
  {
    RowOk(v);
    EntryWidths(LegalCode(v));
  }

  // ---------------------------------------------------------------------
  // Decoding: tryParse
  // ---------------------------------------------------------------------

  /** `windowed(size = 6, step = 6, partialWindows = false)`: complete windows only. */
  function Windows(s: seq<int>): (ws: seq<seq<int>>)
    ensures |ws| == |s| / 6
    ensures forall i :: 0 <= i < |ws| ==> ws[i] == s[6 * i..6 * i + 6]
  {
    if |s| < 6 then [] else [s[..6]] + Windows(s[6..])
  }

  /**
   * `.map { it.fold(0) { a, d -> a * 10 + d } }.map { CODE_TO_VALUE[it] ?: return null }`:
   * the symbol of every window, or `None` as soon as one window is not in the table.
   */
  function LookupAll(ws: seq<seq<int>>): (r: Option<seq<nat>>)
    ensures r.Some? ==> |r.value| == |ws|
    ensures r.Some? <==> forall i :: 0 <= i < |ws| ==> CodeToValue(FoldInt(ws[i], 10)).Some?
    ensures r.Some? ==> forall i :: 0 <= i < |ws| ==> r.value[i] == CodeToValue(FoldInt(ws[i], 10)).value
  {
    if ws == [] then Some([])
    else
      var head := CodeToValue(FoldInt(ws[0], 10));
      var rest := LookupAll(ws[1..]);
      if head.None? || rest.None? then None else Some([head.value] + rest.value)
  }

  /** `foldIndexed(2) { idx, acc, v -> acc + (idx + 1) * v }`. */
  function CheckAcc(d: seq<int>): int
  {
    if d == [] then CHECK_START else CheckAcc(d[..|d| - 1]) + |d| * d[|d| - 1]
  }

  /** The check symbol over data symbols `d`. */
  function Checksum(d: seq<int>): (check: int)
    ensures 0 <= check < CHECK_MODULUS
  {
    CheckAcc(d) % CHECK_MODULUS
  }

  /**
   * `Code128.tryParse`: the decoded `Int`, or `None` when a complete window
   * is not a table entry, when there are not exactly six complete windows,
   * or when the sixth symbol is not the check sum of the first five.
   */
  function TryParse(segments: seq<int>): (r: Option<Int32>)
    ensures r.Some? ==> 36 <= |segments| < 42
    ensures r.Some? ==> forall w :: w in Windows(segments) ==> CodeToValue(FoldInt(w, 10)).Some?
    ensures var found := LookupAll(Windows(segments));
      r.Some? <==> found.Some? && |found.value| == 6 && Checksum(found.value[..5]) == found.value[5]
    ensures r.Some? ==> r.value == FoldInt(LookupAll(Windows(segments)).value[..5], 100)
  {
    match LookupAll(Windows(segments))
    case None => None
    case Some(values) =>
      if |values| != 5 + 1 then None
      else if Checksum(values[..5]) != values[5] then None
      else Some(FoldInt(values[..5], 100))
  }

  // ---------------------------------------------------------------------
  // Encoding: toIntervals
  // ---------------------------------------------------------------------

  /** `codePoints[0..4]`: `decimals.getOrNull(4 - it) ?: 0`, the base-100 digits most significant first. */
  function DataSymbols(code: int): (d: seq<int>)
    ensures |d| == 5
  {
    var decimals := DigitsLsb(code, 100);
    seq(5, k requires 0 <= k < 5 => if 4 - k < |decimals| then decimals[4 - k] else 0)
  }

  /** The six code points: the data symbols and their check symbol. */
  function CodePoints(code: int): (cps: seq<int>)
    ensures |cps| == 5 + 1
  {
    var d := DataSymbols(code);
    d + [Checksum(d)]
  }

  predicate InTable(cps: seq<int>)
  {
    forall i :: 0 <= i < |cps| ==> 0 <= cps[i] < SYMBOL_COUNT
  }

  /** The concatenation of `ws`, as `flatMap` builds it. */
  function Flatten(ws: seq<seq<int>>): seq<int>
  {
    if ws == [] then [] else Flatten(ws[..|ws| - 1]) + ws[|ws| - 1]
  }

  /** The widths of each symbol of `cps`. */
  function SymbolBars(cps: seq<int>): (ws: seq<seq<int>>)
    requires InTable(cps)
    ensures |ws| == |cps|
    ensures forall i :: 0 <= i < |cps| ==> ws[i] == Bars(cps[i])
  {
    seq(|cps|, i requires 0 <= i < |cps| => Bars(cps[i]))
  }

  /** `flatMap` of the symbols' widths. */
  function BarsOf(cps: seq<int>): seq<int>
    requires InTable(cps)
  {
    Flatten(SymbolBars(cps))
  }

  lemma {:induction false} DataSymbolsBounds(code: int)
    ensures forall k :: 0 <= k < 5 ==> 0 <= DataSymbols(code)[k] < 100
  {
    if code >= 0 {
      DigitsLsbValue(code, 100);
    }
  }

  lemma {:induction false} CheckAccNonNegative(d: seq<int>)
    requires forall i :: 0 <= i < |d| ==> d[i] >= 0
    ensures CheckAcc(d) >= CHECK_START
  {
    if d != [] {
      CheckAccNonNegative(d[..|d| - 1]);
    }
  }

  lemma CodePointsInTable(code: int)
    ensures InTable(CodePoints(code))
    ensures forall i :: 0 <= i < 5 ==> CodePoints(code)[i] < 100
    ensures CodePoints(code)[5] < CHECK_MODULUS
  {
    DataSymbolsBounds(code);
  }

  /** The widths `toIntervals(code)` returns. */
  function Intervals(code: Int32): seq<int>
  {
    CodePointsInTable(code);
    BarsOf(CodePoints(code)) + [STOP_WIDTH]
  }

  /** The first `sequence { while (currentCode > 0) ... }` of `toIntervals`: base-100 digits, least significant first. */
  method BaseHundredDigits(code: int) returns (decimals: seq<int>)
    ensures decimals == DigitsLsb(code, 100)
  {
    decimals := [];
    var currentCode := code;
    while currentCode > 0
      invariant DigitsLsb(code, 100) == decimals + DigitsLsb(currentCode, 100)
      decreases currentCode
    {
      decimals := decimals + [currentCode % 100];
      currentCode := currentCode / 100;
    }
  }

  /** The `flatMap` body of `toIntervals`: the decimal digits of `encoding`, reversed. */
  method SymbolWidths(encoding: int) returns (widths: seq<int>)
    ensures widths == Widths(encoding)
  {
    var digits: seq<int> := [];
    var rest := encoding;
    while rest > 0
      invariant DigitsLsb(encoding, 10) == digits + DigitsLsb(rest, 10)
      decreases rest
    {
      digits := digits + [rest % 10];
      rest := rest / 10;
    }
    widths := Reverse(digits);
  }

  lemma CheckAccStep(d: seq<int>, i: nat)
    requires i < |d|
    ensures CheckAcc(d[..i + 1]) == CheckAcc(d[..i]) + d[i] * (i + 1)
  {
    assert d[..i + 1][..i] == d[..i];
  }

  lemma BarsOfStep(cps: seq<int>, k: nat)
    requires k < |cps| && InTable(cps)
    ensures BarsOf(cps[..k + 1]) == BarsOf(cps[..k]) + Bars(cps[k])
  {
    assert SymbolBars(cps[..k + 1])[..k] == SymbolBars(cps[..k]);
  }

  /** `Code128.toIntervals`. */
  method ToIntervals(code: Int32) returns (widths: seq<int>)
    ensures widths == Intervals(code)
  {
    var decimals := BaseHundredDigits(code);
    var codePoints := new int[6](k => if 0 <= 4 - k < |decimals| then decimals[4 - k] else 0);
    ghost var data := DataSymbols(code);
    assert codePoints[..5] == data;
    var acc := CHECK_START;
    var idx := 0;
    while idx < 5
      invariant 0 <= idx <= 5
      invariant codePoints[..5] == data
      invariant acc == CheckAcc(data[..idx])
    {
      CheckAccStep(data, idx);
      acc := acc + codePoints[idx] * (idx + 1);
      idx := idx + 1;
    }
    assert data[..5] == data;
    codePoints[5] := acc % CHECK_MODULUS;
    ghost var cps := CodePoints(code);
    assert codePoints[..] == cps;
    CodePointsInTable(code);
    widths := [];
    var k := 0;
    while k < 6
      invariant 0 <= k <= 6
      invariant codePoints[..] == cps
      invariant widths == BarsOf(cps[..k])
    {
      var symbolWidths := SymbolWidths(LegalCode(codePoints[k]));
      BarsOfStep(cps, k);
      widths := widths + symbolWidths;
      k := k + 1;
    }
    assert cps[..6] == cps;
    widths := widths + [STOP_WIDTH];
  }

  // ---------------------------------------------------------------------
  // Properties of the encoder and the decoder
  // ---------------------------------------------------------------------

  lemma {:induction false} SumAppend(a: seq<int>, b: seq<int>)
    ensures Sum(a + b) == Sum(a) + Sum(b)
    decreases |b|
  {
    if b == [] {
      assert a + b == a;
    } else {
      assert (a + b)[..|a + b| - 1] == a + b[..|b| - 1];
      SumAppend(a, b[..|b| - 1]);
    }
  }

  /** Every piece of `ws` has `n` elements. */
  predicate Uniform(ws: seq<seq<int>>, n: nat)
  {
    forall i :: 0 <= i < |ws| ==> |ws[i]| == n
  }

  lemma {:induction false} FlattenLength(ws: seq<seq<int>>)
    requires Uniform(ws, 6)
    ensures |Flatten(ws)| == 6 * |ws|
  {
    if ws != [] {
      FlattenLength(ws[..|ws| - 1]);
    }
  }

  /** Piece `i` of a uniform concatenation sits at `6 * i`. */
  lemma {:induction false} FlattenSlice(ws: seq<seq<int>>, i: nat)
    requires Uniform(ws, 6) && i < |ws|
    ensures 6 * i + 6 <= |Flatten(ws)|
    ensures Flatten(ws)[6 * i..6 * i + 6] == ws[i]
  {
    var p := ws[..|ws| - 1];
    FlattenLength(ws);
    FlattenLength(p);
    if i < |p| {
      FlattenSlice(p, i);
      assert Flatten(ws)[6 * i..6 * i + 6] == Flatten(p)[6 * i..6 * i + 6];
    }
  }

  lemma SliceOfPrefix(a: seq<int>, b: seq<int>, lo: int, hi: int)
    requires 0 <= lo <= hi <= |a|
    ensures (a + b)[lo..hi] == a[lo..hi]
  {
  }

  /** Cutting a uniform concatenation, plus a partial tail, into windows gives the pieces back. */
  lemma WindowsOfFlatten(ws: seq<seq<int>>, tail: seq<int>)
    requires Uniform(ws, 6) && |tail| < 6
    ensures Windows(Flatten(ws) + tail) == ws
  {
    var s := Flatten(ws) + tail;
    FlattenLength(ws);
    assert |s| == 6 * |ws| + |tail|;
    assert |Windows(s)| == |ws|;
    forall i | 0 <= i < |ws|
      ensures Windows(s)[i] == ws[i]
    {
      FlattenSlice(ws, i);
      SliceOfPrefix(Flatten(ws), tail, 6 * i, 6 * i + 6);
    }
  }

  /** The widths of a run of symbols: six per symbol, each in 1..4, eleven modules per symbol. */
  lemma {:induction false} BarsOfShape(cps: seq<int>)
    requires InTable(cps)
    ensures |BarsOf(cps)| == 6 * |cps|
    ensures forall i :: 0 <= i < |BarsOf(cps)| ==> 1 <= BarsOf(cps)[i] <= 4
    ensures Sum(BarsOf(cps)) == 11 * |cps|
  {
    if cps != [] {
      var n := |cps|;
      var p := cps[..n - 1];
      assert cps[..n] == cps;
      BarsOfStep(cps, n - 1);
      BarsOfShape(p);
      BarsShape(cps[n - 1]);
      SumAppend(BarsOf(p), Bars(cps[n - 1]));
    }
  }

  /**
   * What `toIntervals` draws: 37 widths, the last one the stop width 2,
   * the others in 1..4, over 68 modules in total.
   */
  lemma IntervalsShape(code: Int32)
    ensures |Intervals(code)| == 37
    ensures Intervals(code)[36] == STOP_WIDTH
    ensures forall i :: 0 <= i < 36 ==> 1 <= Intervals(code)[i] <= 4
    ensures Sum(Intervals(code)) == 68
  {
    CodePointsInTable(code);
    BarsOfShape(CodePoints(code));
    SumAppend(BarsOf(CodePoints(code)), [STOP_WIDTH]);
    assert Sum([STOP_WIDTH]) == STOP_WIDTH by {
      assert [STOP_WIDTH][..0] == [];
    }
  }

  /**
   * Decoding six symbols drawn by their widths: when the sixth is the
   * check symbol of the first five, `tryParse` returns the base-100 `Int`
   * of the first five, whatever follows in a partial window.
   */
  lemma ParseCodePoints(cps: seq<int>, tail: seq<int>)
    requires |cps| == 5 + 1 && InTable(cps)
    requires Checksum(cps[..5]) == cps[5]
    requires |tail| < 6
    ensures TryParse(BarsOf(cps) + tail) == Some(FoldInt(cps[..5], 100))
  {
    LookupDrawn(cps, tail);
  }

  /** The symbols drawn for code points in the table look up to those code points. */
  lemma LookupDrawn(cps: seq<int>, tail: seq<int>)
    requires |cps| == 5 + 1 && InTable(cps) && |tail| < 6
    ensures LookupAll(Windows(BarsOf(cps) + tail)) == Some(cps)
  {
    var ws := SymbolBars(cps);
    assert Uniform(ws, 6) && forall i :: 0 <= i < |ws| ==> CodeToValue(FoldInt(ws[i], 10)) == Some(cps[i]) by {
      forall i | 0 <= i < |cps|
        ensures |ws[i]| == 6
        ensures CodeToValue(FoldInt(ws[i], 10)) == Some(cps[i])
      {
        BarsShape(cps[i]);
      }
    }
    WindowsOfFlatten(ws, tail);
    LookupAllOf(ws, cps);
  }

  lemma LookupAllOf(ws: seq<seq<int>>, cps: seq<int>)
    requires |ws| == |cps| && forall i :: 0 <= i < |ws| ==> CodeToValue(FoldInt(ws[i], 10)) == Some(cps[i])
    ensures LookupAll(ws) == Some(cps)
  {
    var found := LookupAll(ws);
    assert found.Some?;
    assert found.value == cps;
  }

  /** Replacing one of five data symbols by a value not a multiple of 103 away changes the check symbol. */
  lemma ChecksumOfChange(d: seq<int>, i: nat, v: int)
    requires |d| == 5 && i < 5 && (d[i] - v) % CHECK_MODULUS != 0
    ensures Checksum(d[i := v]) != Checksum(d)
  {
    ChecksumDetectsSingleChange(d, d[i := v], i);
  }

  /**
   * A drawn code with one data symbol replaced by another symbol of the table,
   * not a multiple of 103 away, fails the check symbol: `tryParse` returns null.
   */
  lemma ChangedSymbolRejected(cps: seq<int>, i: nat, v: int, tail: seq<int>)
    requires |cps| == 5 + 1 && InTable(cps) && Checksum(cps[..5]) == cps[5]
    requires i < 5 && 0 <= v < SYMBOL_COUNT && (cps[i] - v) % CHECK_MODULUS != 0
    requires |tail| < 6
    ensures TryParse(BarsOf(cps[i := v]) + tail) == None
  {
    var changed := cps[i := v];
    assert Checksum(changed[..5]) != changed[5] by {
      ChecksumOfChange(cps[..5], i, v);
      assert changed[..5] == cps[..5][i := v];
    }
    assert InTable(changed) by {
      forall j | 0 <= j < |changed|
        ensures 0 <= changed[j] < SYMBOL_COUNT
      {
        if j != i {
          assert changed[j] == cps[j];
        }
      }
    }
    LookupDrawn(changed, tail);
  }

  /** Zero digits appended after the most significant end. */
  function PadZeros(d: seq<int>, n: nat): (r: seq<int>)
    ensures |r| == if |d| < n then n else |d|
  {
    if |d| < n then d + seq(n - |d|, _ => 0) else d
  }

  lemma {:induction false} ValueLsbZeros(d: seq<int>, base: int)
    requires forall i :: 0 <= i < |d| ==> d[i] == 0
    ensures ValueLsb(d, base) == 0
  {
    if d != [] {
      ValueLsbZeros(d[1..], base);
    }
  }

  lemma {:induction false} ValueLsbPad(d: seq<int>, z: seq<int>, base: int)
    requires forall i :: 0 <= i < |z| ==> z[i] == 0
    ensures ValueLsb(d + z, base) == ValueLsb(d, base)
  {
    if d == [] {
      assert d + z == z;
      ValueLsbZeros(z, base);
    } else {
      assert (d + z)[1..] == d[1..] + z;
      ValueLsbPad(d[1..], z, base);
    }
  }

  /**
   * The five data symbols are the base-100 digits of a non-negative code,
   * most significant first: folding them back gives the code.
   */
  lemma DataSymbolsValue(code: Int32)
    requires code >= 0
    ensures forall k :: 0 <= k < 5 ==> 0 <= DataSymbols(code)[k] < 100
    ensures FoldInt(DataSymbols(code), 100) == code
  {
    var decimals := DigitsLsb(code, 100);
    DigitsLsbValue(code, 100);
    DigitsLsbShort(code, 100, 5);
    var padded := PadZeros(decimals, 5);
    assert padded == decimals + seq(5 - |decimals|, _ => 0);
    ValueLsbPad(decimals, seq(5 - |decimals|, _ => 0), 100);
    assert DataSymbols(code) == Reverse(padded);
    FoldReverse(padded, 100);
    DataSymbolsBounds(code);
    FoldIntExact(DataSymbols(code), 100);
  }

  /** `tryParse(toIntervals(code)) == code` for every non-negative `Int`. */
  lemma RoundTrip(code: Int32)
    requires code >= 0
    ensures TryParse(Intervals(code)) == Some(code)
  {
    var cps := CodePoints(code);
    CodePointsInTable(code);
    assert cps[..5] == DataSymbols(code);
    DataSymbolsValue(code);
    ParseCodePoints(cps, [STOP_WIDTH]);
  }

  /** A negative `Int` has no base-100 digits under `while (currentCode > 0)`, so it draws the barcode of 0. */
  lemma NegativeDrawsZero(code: Int32)
    requires code < 0
    ensures Intervals(code) == Intervals(0)
    ensures TryParse(Intervals(code)) == Some(0)
  {
    assert DataSymbols(code) == DataSymbols(0);
    RoundTrip(0);
  }

  /** `windowed(..., partialWindows = false)` drops a trailing partial window. */
  lemma {:induction false} WindowsIgnoreTail(s: seq<int>, t: seq<int>)
    requires |s| % 6 == 0 && |t| < 6
    ensures Windows(s + t) == Windows(s)
    decreases |s|
  {
    if |s| == 0 {
      assert s + t == t;
    } else {
      assert (s + t)[..6] == s[..6];
      assert (s + t)[6..] == s[6..] + t;
      WindowsIgnoreTail(s[6..], t);
    }
  }

  /** Widths after the last complete window do not change the decoded `Int`. */
  lemma TryParseIgnoresTail(s: seq<int>, t: seq<int>)
    requires |s| % 6 == 0 && |t| < 6
    ensures TryParse(s + t) == TryParse(s)
  {
    WindowsIgnoreTail(s, t);
  }

  lemma {:induction false} CheckAccDiff(d: seq<int>, e: seq<int>, i: nat)
    requires |d| == |e| && i < |d|
    requires forall j :: 0 <= j < |d| && j != i ==> d[j] == e[j]
    ensures CheckAcc(d) - CheckAcc(e) == (i + 1) * (d[i] - e[i])
  {
    var n := |d|;
    assert d[..n - 1] == e[..n - 1] || i < n - 1;
    if i < n - 1 {
      CheckAccDiff(d[..n - 1], e[..n - 1], i);
    }
  }

  /** 103 is prime, so no weight 1..5 times a non-multiple of 103 is a multiple of 103. */
  lemma WeightKeepsResidue(k: int, r: int)
    requires 1 <= k <= 5 && 1 <= r < CHECK_MODULUS
    ensures (k * r) % CHECK_MODULUS != 0
  {
    var q := (k * r) / 103;
    if k == 1 {
    } else if k == 2 {
      assert 2 * r == 103 * q + (k * r) % 103;
    } else if k == 3 {
      assert 3 * r == 103 * q + (k * r) % 103;
    } else if k == 4 {
      assert 4 * r == 103 * q + (k * r) % 103;
    } else {
      assert 5 * r == 103 * q + (k * r) % 103;
    }
  }

  lemma DistinctResidues(a: int, b: int)
    requires (a - b) % CHECK_MODULUS != 0
    ensures a % CHECK_MODULUS != b % CHECK_MODULUS
  {
    var qa, qb := a / 103, b / 103;
    assert a == 103 * qa + a % 103;
    assert b == 103 * qb + b % 103;
    var k := qa - qb;
    assert a - b == 103 * k + (a % 103 - b % 103);
  }

  /** A multiple of a non-multiple of 103 by a weight 1..5 is not a multiple of 103. */
  lemma WeightedResidue(k: int, x: int)
    requires 1 <= k <= 5 && x % CHECK_MODULUS != 0
    ensures (k * x) % CHECK_MODULUS != 0
  {
    var q, r := x / 103, x % 103;
    assert x == 103 * q + r;
    WeightKeepsResidue(k, r);
    var t, u := (k * r) / 103, (k * r) % 103;
    assert k * r == 103 * t + u;
    assert k * x == (k * q + t) * 103 + u;
    Int32Bits.DivModUnique(k * x, 103, k * q + t, u);
  }

  /**
   * The check symbol catches any single changed data symbol, unless the old
   * and the new value differ by a multiple of 103.
   */
  lemma ChecksumDetectsSingleChange(d: seq<int>, e: seq<int>, i: nat)
    requires |d| == |e| == 5 && i < 5
    requires forall j :: 0 <= j < |d| && j != i ==> d[j] == e[j]
    requires (d[i] - e[i]) % CHECK_MODULUS != 0
    ensures Checksum(d) != Checksum(e)
  {
    CheckAccDiff(d, e, i);
    WeightedResidue(i + 1, d[i] - e[i]);
    DistinctResidues(CheckAcc(d), CheckAcc(e));
  }
}
