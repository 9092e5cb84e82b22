/**
 * The flash-sale configuration entity: one time-boxed discounted sale of a
 * product, with its allocation (`flashQuantity`) and the units sold so far.
 * The purchase path changes nothing but `soldQuantity`, so the other
 * columns are constants here.
 */
module FlashSaleConfigEntity {

  class FlashSaleConfig {
    const id: nat
    const productId: nat
    /** Start and end of the daily window, as seconds of the day. */
    const startTime: int
    const endTime: int
    /** Sale price in cents. */
    const flashPrice: int
    /** Units allocated to the sale. */
    const flashQuantity: int
    /** Units sold so far. */
    var soldQuantity: int
    /** The sale's calendar date (day number). */
    const saleDate: int
    const isActive: bool

    /**
     * Builds a configuration; as with the entity's builder, `soldQuantity`
     * defaults to 0 and `isActive` to true.
     */
    constructor (id: nat, productId: nat, startTime: int, endTime: int, flashPrice: int,
                 flashQuantity: int, saleDate: int, soldQuantity: int := 0, isActive: bool := true)
      ensures this.id == id && this.productId == productId
      ensures this.startTime == startTime && this.endTime == endTime
      ensures this.flashPrice == flashPrice && this.flashQuantity == flashQuantity
      ensures this.saleDate == saleDate
      ensures this.soldQuantity == soldQuantity && this.isActive == isActive
      ensures HasStock() <==> soldQuantity < flashQuantity
    {
      this.id := id;
      this.productId := productId;
      this.startTime := startTime;
      this.endTime := endTime;
      this.flashPrice := flashPrice;
      this.flashQuantity := flashQuantity;
      this.saleDate := saleDate;
      this.soldQuantity := soldQuantity;
      this.isActive := isActive;
    }

    /** Some allocated unit is still unsold; the ensures is the definition, stated as "one more unit fits". */
    predicate HasStock(): (b: bool)
      reads this
      ensures b <==> soldQuantity + 1 <= flashQuantity
    {
      soldQuantity < flashQuantity
    }

    /** Records the sale of one unit. */
    method IncrementSoldQuantity()
      modifies this`soldQuantity
      ensures soldQuantity == old(soldQuantity) + 1
      ensures old(HasStock()) ==> soldQuantity <= flashQuantity
      ensures !old(HasStock()) ==> !HasStock()
    {
      soldQuantity := soldQuantity + 1;
    }
  }
}
