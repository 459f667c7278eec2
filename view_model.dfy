/**
 * The details screen's view model: the recipe of a scanned barcode held as
 * mutable state, the setters the screen's sliders and fields call, and the
 * barcode number the `barcode` getter packs from the current state, as written.
 *
 * `alcoholStates` is a map sorted by the declaration order of the liquors,
 * which the getter follows; that order is `order` here.
 */
module ViewModel {
  import opened Wrappers
  import opened Int32Math
  import opened Int32Bits
  import opened Details
  import opened Amounts

  class DetailsViewModel {
    const order: seq<Alcohol>
    var levels: map<Alcohol, Level>
    var water: WaterLevel
    var glass: Glass
    var drinkId: Int32

    /** Every liquor has a level, and `order` lists each liquor once. */
    ghost predicate Valid()
      reads this
    {
      Complete(levels) && IsEnumOrder(order)
    }

    /** The recipe the view model holds. */
    function State(): Recipe
      reads this
    {
      Recipe(levels, water, glass, drinkId)
    }

    /**
     * Unpacks the scanned barcode. Glass bits `0b110` make the source throw; that
     * case is excluded here.
     */
    constructor(scannedBarcode: Int32, declarationOrder: seq<Alcohol>)
      requires IsEnumOrder(declarationOrder)
      requires !(WordOf(scannedBarcode)[1] && WordOf(scannedBarcode)[2])
      ensures Valid() && order == declarationOrder
      ensures Decode(WordOf(scannedBarcode)) == Ok(State())
    {
      var recipe := Decode(WordOf(scannedBarcode)).value;
      order := declarationOrder;
      levels := recipe.levels;
      water := recipe.water;
      glass := recipe.glass;
      drinkId := recipe.drinkId;
    }

    /** The amount shown for a liquor; setting it again stores the same level. */
    function AlcoholAmount(a: Alcohol): (amount: int)
      reads this
      requires Valid()
      ensures amount == 0 <==> levels[a] == 0
      ensures LevelAsWritten(amount) == levels[a]
    {
      LevelAsWrittenAmount(levels[a]);
      AmountOf(levels[a])
    }

    /** Stores the level the setter computes for the slider amount; nothing else changes. */
    method SetAlcoholAmount(a: Alcohol, amount: int)
      requires Valid()
      modifies this
      ensures Valid()
      ensures levels == old(levels)[a := LevelAsWritten(amount)]
      ensures water == old(water) && glass == old(glass) && drinkId == old(drinkId)
      ensures 0 <= amount ==> AlcoholAmount(a) <= amount
      ensures old(AlcoholCount()) <= 3 && (old(levels[a]) > 0 || old(AlcoholCount()) < 3) ==> AlcoholCount() <= 3
    {
      if old(AlcoholCount()) <= 3 && (levels[a] > 0 || AlcoholCount() < 3) {
        SliderKeepsCap(levels, a, LevelAsWritten(amount));
      }
      levels := levels[a := LevelAsWritten(amount)];
    }

    /** The water amount shown; setting it again shows the same amount. */
    function WaterAmount(): (amount: int)
      reads this
      ensures amount in WATER_AMOUNTS
      ensures WATER_AMOUNTS[WaterForAmount(amount)] == amount
    {
      WaterAmountsShape();
      WaterForShownAmount(water);
      WATER_AMOUNTS[water]
    }

    /** Stores the water level for the slider amount; nothing else changes. */
    method SetWater(amount: int)
      requires Valid()
      modifies this
      ensures water == WaterForAmount(amount)
      ensures levels == old(levels) && glass == old(glass) && drinkId == old(drinkId)
      ensures Valid()
      ensures 0 <= amount ==> WaterAmount() <= amount
    {
      water := WaterForAmount(amount);
    }

    method SetGlass(g: Glass)
      requires Valid()
      modifies this
      ensures glass == g
      ensures levels == old(levels) && water == old(water) && drinkId == old(drinkId)
      ensures Valid()
    {
      glass := g;
    }

    method SetDrinkId(id: Int32)
      requires Valid()
      modifies this
      ensures drinkId == id
      ensures levels == old(levels) && water == old(water) && glass == old(glass)
      ensures Valid()
    {
      drinkId := id;
    }

    /** How many liquors have a level above 0. */
    function AlcoholCount(): (n: nat)
      reads this
      requires Valid()
      ensures n <= 5
      ensures n == 0 <==> forall a :: levels[a] == 0
    {
      CountZero(levels);
      Count(levels)
    }

    /**
     * The number the getter packs from the current state, as written. It is odd and
     * decodes to the state's glass and water level; with at most three liquors it
     * carries the drink id cut to nine bits, and for a state the screen can produce it
     * is not negative. The liquor levels need not come back (`EncodeAsWrittenLoses`).
     */
    function Barcode(): (code: Int32)
      reads this
      requires Valid()
      ensures 0 <= drinkId ==>
        (code % 2 == 1 && Decode(WordOf(code)).Ok? &&
         Decode(WordOf(code)).value.glass == glass && Decode(WordOf(code)).value.water == water)
      ensures 0 <= drinkId && AlcoholCount() <= 3 ==> Decode(WordOf(code)).value.drinkId == drinkId % 512
      ensures ValidRecipe(State()) ==> 0 <= code
    {
      var code := IntOf(EncodeAsWritten(order, State()));
      assert 0 <= drinkId ==>
        (code % 2 == 1 && Decode(WordOf(code)).Ok? &&
         Decode(WordOf(code)).value.glass == glass && Decode(WordOf(code)).value.water == water &&
         (AlcoholCount() <= 3 ==> Decode(WordOf(code)).value.drinkId == drinkId % 512) &&
         (ValidRecipe(State()) ==> 0 <= code)) by {
        if 0 <= drinkId {
          AsWrittenCarries(order, State());
        }
      }
      code
    }
  }

  /**
   * Scanning the barcode a view model printed gives a view model with the same
   * glass, water level and drink id, for a state the screen can produce.
   */
  method ScanPrinted(vm: DetailsViewModel) returns (rescanned: DetailsViewModel)
    requires vm.Valid() && ValidRecipe(vm.State())
    ensures rescanned.Valid() && rescanned.order == vm.order
    ensures rescanned.glass == vm.glass && rescanned.water == vm.water && rescanned.drinkId == vm.drinkId
  {
    var code := vm.Barcode();
    var decoded := Decode(WordOf(code));
    assert decoded.Ok? && decoded.value.glass == vm.glass && decoded.value.water == vm.water;
    assert decoded.value.drinkId == vm.drinkId by {
      DivModUnique(vm.drinkId, 512, 0, vm.drinkId);
    }
    rescanned := new DetailsViewModel(code, vm.order);
  }
}
