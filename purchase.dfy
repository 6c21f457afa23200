/** The shop purchase endpoint: the missing-field report, the chain of checks
    (user, item, stock, balance) and the order it records. */
module Purchase {
  import opened Common
  import opened Airtable

  datatype Required = TokenField | ShopItemIdField | ShippingInfoField

  function RequiredName(f: Required): string
  {
    match f
    case TokenField => "token"
    case ShopItemIdField => "shopItemId"
    case ShippingInfoField => "shippingInfo"
  }

  function Rank(f: Required): nat
  {
    match f
    case TokenField => 0
    case ShopItemIdField => 1
    case ShippingInfoField => 2
  }

  /** The fields a request leaves falsy, in the order token, shopItemId,
      shippingInfo */
  function MissingList(token: JsValue, shopItemId: JsValue, shippingInfo: JsValue): (r: seq<Required>)
    ensures TokenField in r <==> !Truthy(token)
    ensures ShopItemIdField in r <==> !Truthy(shopItemId)
    ensures ShippingInfoField in r <==> !Truthy(shippingInfo)
    ensures forall i, j :: 0 <= i < j < |r| ==> Rank(r[i]) < Rank(r[j])
    ensures r == [] <==> Truthy(token) && Truthy(shopItemId) && Truthy(shippingInfo)
  {
    (if Truthy(token) then [] else [TokenField])
    + (if Truthy(shopItemId) then [] else [ShopItemIdField])
    + (if Truthy(shippingInfo) then [] else [ShippingInfoField])
  }

  /** missingFields, built by one push per falsy field in the order
      token, shopItemId, shippingInfo */
  method MissingFields(token: JsValue, shopItemId: JsValue, shippingInfo: JsValue)
    returns (missing: seq<Required>)
    ensures missing == MissingList(token, shopItemId, shippingInfo)
    ensures TokenField in missing <==> !Truthy(token)
    ensures ShopItemIdField in missing <==> !Truthy(shopItemId)
    ensures ShippingInfoField in missing <==> !Truthy(shippingInfo)
    ensures forall i, j :: 0 <= i < j < |missing| ==> Rank(missing[i]) < Rank(missing[j])
    ensures missing == [] <==> Truthy(token) && Truthy(shopItemId) && Truthy(shippingInfo)
  {
    var a := if Truthy(token) then [] else [TokenField];
    var b := if Truthy(shopItemId) then [] else [ShopItemIdField];
    missing := [];
    if !Truthy(token) {
      missing := missing + [TokenField];
    }
    assert missing == a;
    if !Truthy(shopItemId) {
      missing := missing + [ShopItemIdField];
    }
    assert missing == a + b;
    if !Truthy(shippingInfo) {
      missing := missing + [ShippingInfoField];
    }
    assert missing == MissingList(token, shopItemId, shippingInfo);
  }

  /** Math.floor(100000000 + Math.random() * 900000000).toString(), for the
      random fraction `fraction` */
  function GenerateOrderId(fraction: real): (r: string)
    requires 0.0 <= fraction < 1.0
    ensures |r| == 9 && forall i :: 0 <= i < |r| ==> IsDigit(r[i])
    ensures r[0] != '0'
  {
    var n := (100000000.0 + fraction * 900000000.0).Floor;
    NineDigits(n);
    NatToString(n)
  }

  lemma NineDigits(n: int)
    requires 100000000 <= n < 1000000000
    ensures |NatToString(n)| == 9 && NatToString(n)[0] != '0'
  {
    assert Pow10(8) == 100000000 by {
      assert Pow10(4) == 10000;
    }
    NatToStringLength(n, 9);
    LeadingDigit(n);
  }

  /** The decimal digits of a positive number do not start with 0. */
  lemma {:induction false} LeadingDigit(n: nat)
    requires n >= 1
    ensures NatToString(n)[0] != '0'
  {
    if n >= 10 {
      LeadingDigit(n / 10);
    }
  }

  /** The Users record found for the token */
  datatype User = User(id: string, balance: real)

  /** The Shop record fetched by id: parseFloat(Cost || 0) and In Stock || 0 */
  datatype ShopItem = ShopItem(name: string, cost: real, inStock: real)

  /** shippingInfo.x || '' */
  function OrEmpty(v: JsValue): (r: JsValue)
    ensures Truthy(v) ==> r == v
    ensures !Truthy(v) ==> r == Str("")
  {
    if Truthy(v) then v else Str("")
  }

  /** A shipping field of the order: the request's value when truthy, else "" */
  predicate KeptOrBlank(field: JsValue, given: JsValue)
  {
    (Truthy(given) ==> field == given) && (!Truthy(given) ==> field == Str(""))
  }

  datatype Shipping = Shipping(
    street1: JsValue, street2: JsValue, city: JsValue, state: JsValue, zipcode: JsValue,
    country: JsValue, firstName: JsValue, lastName: JsValue, phone: JsValue)

  function ShippingOf(info: JsValue): Shipping
  {
    Shipping(
      OrEmpty(Prop(info, "street1")), OrEmpty(Prop(info, "street2")), OrEmpty(Prop(info, "city")),
      OrEmpty(Prop(info, "state")), OrEmpty(Prop(info, "zipcode")), OrEmpty(Prop(info, "country")),
      OrEmpty(Prop(info, "firstName")), OrEmpty(Prop(info, "lastName")), OrEmpty(Prop(info, "phone")))
  }

  datatype OrderStatus = Unfulfilled

  /** The fields of the Orders record the handler creates */
  datatype Order = Order(
    orderId: string, status: OrderStatus, spentBy: seq<string>, shopItem: seq<JsValue>,
    amountSpent: real, shipping: Shipping)

  datatype Reply =
    | MethodNotAllowed
    | ConfigurationError
    | MissingRequired(missing: seq<Required>)
    | InvalidToken
    | ItemNotFound
    | OutOfStock(itemName: string, inStock: real)
    | InsufficientBalance(userBalance: real, requiredAmount: real, shortfall: real)
    | Created(order: Order)
    | CreateFailed

  function StatusOf(r: Reply): int
  {
    match r
    case MethodNotAllowed => 405
    case ConfigurationError => 500
    case MissingRequired(_) => 400
    case InvalidToken => 401
    case ItemNotFound => 400
    case OutOfStock(_, _) => 400
    case InsufficientBalance(_, _, _) => 400
    case Created(_) => 200
    case CreateFailed => 500
  }

  /** The checks after the required fields are present: user, item, stock,
      balance; `createdId` is the id Airtable returns for the new order
      ("" when the response carries none). */
  function Decide(user: Option<User>, shopItemId: JsValue, item: Option<ShopItem>, shippingInfo: JsValue,
                  fraction: real, createdId: string): (r: Reply)
    requires 0.0 <= fraction < 1.0
  {
    if user.None? then InvalidToken
    else if item.None? then ItemNotFound
    else if item.value.inStock <= 0.0 then
      OutOfStock(if item.value.name == "" then "Unknown item" else item.value.name, item.value.inStock)
    else if user.value.balance < item.value.cost then
      InsufficientBalance(user.value.balance, item.value.cost, item.value.cost - user.value.balance)
    else
      var order := Order(GenerateOrderId(fraction), Unfulfilled, [user.value.id], [shopItemId],
                         item.value.cost, ShippingOf(shippingInfo));
      if createdId != "" then Created(order) else CreateFailed
  }

  /** handler: 405, 500 without an API key, 400 listing the missing fields,
      then the decision chain. */
  method Handle(httpMethod: string, apiKey: string, token: JsValue, shopItemId: JsValue, shippingInfo: JsValue,
                user: Option<User>, item: Option<ShopItem>, fraction: real, createdId: string)
    returns (reply: Reply)
    requires 0.0 <= fraction < 1.0
    ensures httpMethod != "POST" ==> reply == MethodNotAllowed
    ensures httpMethod == "POST" && apiKey == "" ==> reply == ConfigurationError
    ensures reply.MissingRequired? ==> reply.missing != []
    ensures reply.MissingRequired? ==> reply.missing == MissingList(token, shopItemId, shippingInfo)
    ensures httpMethod == "POST" && apiKey != "" ==>
      (reply.MissingRequired? <==> !Truthy(token) || !Truthy(shopItemId) || !Truthy(shippingInfo))
    ensures httpMethod == "POST" && apiKey != "" && Truthy(token) && Truthy(shopItemId) && Truthy(shippingInfo) ==>
      reply == Decide(user, shopItemId, item, shippingInfo, fraction, createdId)
  {
    if httpMethod != "POST" {
      return MethodNotAllowed;
    }
    if apiKey == "" {
      return ConfigurationError;
    }
    if !Truthy(token) || !Truthy(shopItemId) || !Truthy(shippingInfo) {
      var missing := MissingFields(token, shopItemId, shippingInfo);
      return MissingRequired(missing);
    }
    reply := Decide(user, shopItemId, item, shippingInfo, fraction, createdId);
  }

  /** An order is created only for a known user and an item in stock that the
      balance covers (an equal balance is enough); the amount is the item's
      own cost, whatever the client sent, and the order starts Unfulfilled. */
  lemma CreatedOnlyWhenAffordable(user: Option<User>, shopItemId: JsValue, item: Option<ShopItem>,
                                  shippingInfo: JsValue, fraction: real, createdId: string)
    requires 0.0 <= fraction < 1.0
    ensures var r := Decide(user, shopItemId, item, shippingInfo, fraction, createdId);
      r.Created? <==>
        user.Some? && item.Some? && item.value.inStock > 0.0 && user.value.balance >= item.value.cost && createdId != ""
    ensures var r := Decide(user, shopItemId, item, shippingInfo, fraction, createdId);
      r.Created? ==>
        && r.order.amountSpent == item.value.cost
        && r.order.status == Unfulfilled
        && r.order.spentBy == [user.value.id]
        && r.order.shopItem == [shopItemId]
        && |r.order.orderId| == 9
    ensures var r := Decide(user, shopItemId, item, shippingInfo, fraction, createdId);
      r.Created? ==>
        var s := r.order.shipping;
        && KeptOrBlank(s.street1, Prop(shippingInfo, "street1"))
        && KeptOrBlank(s.street2, Prop(shippingInfo, "street2"))
        && KeptOrBlank(s.city, Prop(shippingInfo, "city"))
        && KeptOrBlank(s.state, Prop(shippingInfo, "state"))
        && KeptOrBlank(s.zipcode, Prop(shippingInfo, "zipcode"))
        && KeptOrBlank(s.country, Prop(shippingInfo, "country"))
        && KeptOrBlank(s.firstName, Prop(shippingInfo, "firstName"))
        && KeptOrBlank(s.lastName, Prop(shippingInfo, "lastName"))
        && KeptOrBlank(s.phone, Prop(shippingInfo, "phone"))
  {
  }

  /** The balance check reports how much is missing, and the shortfall is positive. */
  lemma ShortfallPositive(user: Option<User>, shopItemId: JsValue, item: Option<ShopItem>,
                          shippingInfo: JsValue, fraction: real, createdId: string)
    requires 0.0 <= fraction < 1.0
    ensures var r := Decide(user, shopItemId, item, shippingInfo, fraction, createdId);
      r.InsufficientBalance? ==>
        r.shortfall > 0.0 && r.userBalance + r.shortfall == r.requiredAmount
        && item.Some? && r.requiredAmount == item.value.cost
  {
  }

  /** The checks come in order: an unknown user is reported before a missing
      item, a missing item before the stock, and the stock before the balance. */
  lemma ChecksInOrder(user: Option<User>, shopItemId: JsValue, item: Option<ShopItem>,
                      shippingInfo: JsValue, fraction: real, createdId: string)
    requires 0.0 <= fraction < 1.0
    ensures var r := Decide(user, shopItemId, item, shippingInfo, fraction, createdId);
      && (user.None? <==> r == InvalidToken)
      && (user.Some? && item.None? <==> r == ItemNotFound)
      && (r.OutOfStock? <==> user.Some? && item.Some? && item.value.inStock <= 0.0)
      && (r.InsufficientBalance? <==>
            user.Some? && item.Some? && item.value.inStock > 0.0 && user.value.balance < item.value.cost)
  {
  }
}
