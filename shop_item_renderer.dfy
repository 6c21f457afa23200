/** The shop item card: whether the buy button is enabled, the tooltip that
    explains why not, and the button text; and how it agrees with the
    purchase endpoint's own checks. */
module ShopItemRenderer {
  import opened Common
  import opened Airtable
  import Purchase

  /** parseInt(x) || 0, for the result of parseInt (None for NaN) */
  function OrZero(parsed: Option<int>): int
  {
    if parsed.Some? then parsed.value else 0
  }

  predicate HasEnoughBalance(price: int, balance: int)
  {
    balance >= price
  }

  predicate HasStock(stock: int)
  {
    stock > 0
  }

  predicate IsDisabled(price: int, stock: int, balance: int)
  {
    !HasEnoughBalance(price, balance) || !HasStock(stock)
  }

  /** What the tooltip says: nothing, out of stock, or the missing amount */
  datatype Tooltip = NoTooltip | OutOfStock | Insufficient(shortfall: int)

  /** getTooltipText */
  function TooltipOf(price: int, stock: int, balance: int): Tooltip
  {
    if !HasStock(stock) then OutOfStock
    else if !HasEnoughBalance(price, balance) then Insufficient(price - balance)
    else NoTooltip
  }

  function TooltipText(t: Tooltip): string
  {
    match t
    case NoTooltip => ""
    case OutOfStock => "Out of stock"
    case Insufficient(shortfall) =>
      "Insufficient balance. You need " + NatToString(if shortfall < 0 then 0 else shortfall) + " more SSS"
  }

  /** getButtonText */
  function ButtonText(stock: int): string
  {
    if !HasStock(stock) then "Out of Stock" else "Buy"
  }

  /** handleBuyClick: whether onBuyClick is called */
  function BuyClickFires(price: int, stock: int, balance: int, hasHandler: bool): bool
  {
    !IsDisabled(price, stock, balance) && hasHandler
  }

  /** A tooltip is shown exactly when the item is disabled; a missing stock is
      reported before a short balance, and the shortfall is what is missing. */
  lemma TooltipExplainsDisabled(price: int, stock: int, balance: int)
    ensures TooltipOf(price, stock, balance) != NoTooltip <==> IsDisabled(price, stock, balance)
    ensures stock <= 0 ==> TooltipOf(price, stock, balance) == OutOfStock
    ensures TooltipOf(price, stock, balance).Insufficient? ==>
      var shortfall := TooltipOf(price, stock, balance).shortfall;
      shortfall > 0 && balance + shortfall == price && stock > 0
  {
  }

  /** The button reads "Out of Stock" exactly when there is no stock, and a
      click buys only when the item is enabled. */
  lemma ButtonAndClick(price: int, stock: int, balance: int, hasHandler: bool)
    ensures ButtonText(stock) == "Out of Stock" <==> stock <= 0
    ensures BuyClickFires(price, stock, balance, hasHandler) <==> hasHandler && balance >= price && stock > 0
  {
  }

  /** The card reads each prop as parseInt(x) || 0: an unreadable stock is no
      stock, so the card is disabled and says "Out of stock"; an unreadable
      price costs nothing, so any balance that is not negative covers it; and
      an unreadable balance is 0, so an item with a positive price cannot be
      bought. */
  lemma UnreadablePropsReadAsZero(price: Option<int>, stock: Option<int>, balance: Option<int>)
    ensures stock.None? ==>
      IsDisabled(OrZero(price), OrZero(stock), OrZero(balance))
      && TooltipOf(OrZero(price), OrZero(stock), OrZero(balance)) == OutOfStock
    ensures price.None? && OrZero(balance) >= 0 ==> HasEnoughBalance(OrZero(price), OrZero(balance))
    ensures balance.None? && OrZero(price) > 0 ==> IsDisabled(OrZero(price), OrZero(stock), OrZero(balance))
  {
  }

  /** For whole-number prices, stocks and balances, the card enables the buy
      button exactly when the purchase endpoint, given the same user and
      item, passes its stock and balance checks and creates the order. */
  lemma CardAgreesWithEndpoint(price: int, stock: int, balance: int, userId: string, itemName: string,
                               shopItemId: JsValue, shippingInfo: JsValue, fraction: real, createdId: string)
    requires 0.0 <= fraction < 1.0 && createdId != ""
    ensures var reply := Purchase.Decide(Some(Purchase.User(userId, balance as real)), shopItemId,
                                         Some(Purchase.ShopItem(itemName, price as real, stock as real)),
                                         shippingInfo, fraction, createdId);
      !IsDisabled(price, stock, balance) <==> reply.Created?
  {
    Purchase.CreatedOnlyWhenAffordable(Some(Purchase.User(userId, balance as real)), shopItemId,
                                       Some(Purchase.ShopItem(itemName, price as real, stock as real)),
                                       shippingInfo, fraction, createdId);
  }
}
