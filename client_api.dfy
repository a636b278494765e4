/** public/api.js: the browser's cart and login-session helpers, all kept in
    sessionStorage. A stored string is modelled by what JSON.parse makes of
    it: the serialization of a JSON value, the empty string (falsy, so never
    parsed), or text that fails to parse. The alerts and page redirects the
    helpers also perform are not modelled. */
module ClientApi {
  import opened Common
  import opened Json
  import opened JsValues

  datatype StorageValue = Serialized(json: Json) | EmptyText | Garbage

  type Storage = map<string, StorageValue>

  const CartKey: string := "travelDealsCart"
  const UserKey: string := "currentUser"

  // ---------------------------------------------------------------------
  // Cart
  // ---------------------------------------------------------------------

  /** getCart: the parsed cart, or [] when nothing (or an empty string) is
      stored or the stored text does not parse. */
  function CartOf(s: Storage): (cart: Json)
    ensures CartKey !in s ==> cart == JArr([])
    ensures CartKey in s && !s[CartKey].Serialized? ==> cart == JArr([])
    ensures CartKey in s && s[CartKey].Serialized? ==> cart == s[CartKey].json
  {
    if CartKey in s && s[CartKey].Serialized? then s[CartKey].json else JArr([])
  }

  /** Saving a cart and reading it back gives that cart. */
  lemma SaveThenGet(s: Storage, cart: Json)
    ensures CartOf(s[CartKey := Serialized(cart)]) == cart
  {
  }

  /** After clearCart the cart reads as empty. */
  lemma ClearThenGet(s: Storage)
    ensures CartOf(s - {CartKey}) == JArr([])
  {
  }

  /** The position splice(index, 1) starts at: a negative index counts from
      the end (clamped at 0), a large one is clamped to the length. */
  function SpliceStart(len: nat, index: int): (k: nat)
    ensures k <= len
    ensures 0 <= index <= len ==> k == index
    ensures -(len as int) <= index < 0 ==> k == len + index
    ensures index < -(len as int) ==> k == 0
    ensures index > len ==> k == len
  {
    if index < 0 then (if len + index < 0 then 0 else len + index)
    else if index > len then len
    else index
  }

  /** `cart.splice(index, 1)`: the cart without the element at the start
      position, if there is one there. */
  function RemoveAt(items: seq<Json>, index: int): (r: seq<Json>)
    ensures 0 <= index < |items| ==> r == items[..index] + items[index + 1..]
    ensures index >= |items| ==> r == items
    ensures -|items| <= index < 0 ==> r == items[..|items| + index] + items[|items| + index + 1..]
    ensures index < -|items| && items != [] ==> r == items[1..]
    ensures |r| == if items == [] || index >= |items| then |items| else |items| - 1
  {
    var k := SpliceStart(|items|, index);
    if k < |items| then items[..k] + items[k + 1..] else items
  }

  /** Removing position i keeps every other item, in order: those before i
      where they were, those after it shifted down by one. */
  lemma RemoveAtKeepsOthers(items: seq<Json>, i: int)
    requires 0 <= i < |items|
    ensures forall j :: 0 <= j < i ==> RemoveAt(items, i)[j] == items[j]
    ensures forall j :: i <= j < |items| - 1 ==> RemoveAt(items, i)[j] == items[j + 1]
    ensures multiset(RemoveAt(items, i)) + multiset{items[i]} == multiset(items)
  {
    var r := RemoveAt(items, i);
    assert items == items[..i] + [items[i]] + items[i + 1..];
  }

  // ---------------------------------------------------------------------
  // Login session
  // ---------------------------------------------------------------------

  /** JSON.parse's outcome on a stored string. */
  datatype Parsed = ParsedValue(value: Json) | SyntaxError

  /** getCurrentUser: null when nothing (or an empty string) is stored, the
      parsed user otherwise; unparsable text makes JSON.parse throw, and the
      exception reaches the caller. */
  function CurrentUserOf(s: Storage): (r: Parsed)
    ensures UserKey !in s ==> r == ParsedValue(JNull)
    ensures r == SyntaxError <==> UserKey in s && s[UserKey] == Garbage
  {
    if UserKey !in s then ParsedValue(JNull)
    else
      match s[UserKey]
      case EmptyText => ParsedValue(JNull)
      case Garbage => SyntaxError
      case Serialized(j) => ParsedValue(j)
  }

  /** isLoggedIn: `getCurrentUser() !== null`; `None` when getCurrentUser throws. */
  function LoggedInOf(s: Storage): (r: Option<bool>)
    ensures r == Some(true) <==> UserKey in s && s[UserKey].Serialized? && s[UserKey].json != JNull
    ensures r.None? <==> UserKey in s && s[UserKey] == Garbage
  {
    match CurrentUserOf(s)
    case SyntaxError => None
    case ParsedValue(u) => Some(u != JNull)
  }

  /** After logoutUser nobody is logged in, and the cart is untouched. */
  lemma LogoutLogsOut(s: Storage)
    ensures LoggedInOf(s - {UserKey}) == Some(false)
    ensures CartOf(s - {UserKey}) == CartOf(s)
  {
  }

  /** What loginUser stores for the server's reply (`None` when the reply is
      not JSON): only a reply whose `success` is truthy stores anything, and
      it stores `result.user`. Reading `result.user.phone` for the log line
      comes first, so a reply without a user object throws and stores nothing. */
  function LoginStores(result: Option<Json>): (r: Option<Json>)
    ensures r.Some? ==> result.Some? && result.value.JObj? && Truthy(Field(result.value.fields, "success")) &&
                        Field(result.value.fields, "user") == Some(r.value) && r.value != JNull
  {
    if result.None? then None
    else
      match Member(result, "success")
      case TypeError => None
      case Value(success) =>
        if !Truthy(success) then None
        else
          match Member(result, "user")
          case TypeError => None
          case Value(user) =>
            match Member(user, "phone")
            case TypeError => None
            case Value(_) => user
  }

  /** A successful reply carrying a user object is stored, and the browser
      then counts as logged in. */
  lemma LoginThenLoggedIn(s: Storage, result: Json, user: map<string, Json>)
    requires result.JObj? && Field(result.fields, "success") == Some(JBool(true))
    requires Field(result.fields, "user") == Some(JObj(user))
    ensures LoginStores(Some(result)) == Some(JObj(user))
    ensures LoggedInOf(s[UserKey := Serialized(JObj(user))]) == Some(true)
  {
  }

  /** The browser's sessionStorage as these helpers use it. */
  class BrowserSession {
    var storage: Storage

    constructor ()
      ensures storage == map[]
    {
      storage := map[];
    }

    function GetCart(): Json
      reads this
    {
      CartOf(storage)
    }

    function GetCurrentUser(): Parsed
      reads this
    {
      CurrentUserOf(storage)
    }

    function IsLoggedIn(): Option<bool>
      reads this
    {
      LoggedInOf(storage)
    }

    /** saveCartToStorage: the cart is stored under the cart key; nothing
        else changes. */
    method SaveCartToStorage(cart: Json)
      modifies this
      ensures storage == old(storage)[CartKey := Serialized(cart)]
      ensures GetCart() == cart
    {
      storage := storage[CartKey := Serialized(cart)];
    }

    /** addToCart: the item goes at the end of the cart. A stored cart that
        is not an array makes `push` throw, and nothing is saved. */
    method AddToCart(item: Json) returns (ok: bool)
      modifies this
      ensures ok <==> old(GetCart()).JArr?
      ensures ok ==> GetCart() == JArr(old(GetCart()).items + [item])
      ensures ok ==> storage == old(storage)[CartKey := Serialized(JArr(old(GetCart()).items + [item]))]
      ensures !ok ==> storage == old(storage)
    {
      var cart := GetCart();
      if !cart.JArr? {
        return false;
      }
      SaveCartToStorage(JArr(cart.items + [item]));
      return true;
    }

    /** clearCart. */
    method ClearCart()
      modifies this
      ensures storage == old(storage) - {CartKey}
      ensures GetCart() == JArr([])
    {
      storage := storage - {CartKey};
    }

    /** removeFromCart: splice one item out at `index` and save. A stored
        cart that is not an array makes `splice` throw, and nothing is saved. */
    method RemoveFromCart(index: int) returns (ok: bool)
      modifies this
      ensures ok <==> old(GetCart()).JArr?
      ensures ok ==> GetCart() == JArr(RemoveAt(old(GetCart()).items, index))
      ensures ok ==> storage == old(storage)[CartKey := Serialized(JArr(RemoveAt(old(GetCart()).items, index)))]
      ensures !ok ==> storage == old(storage)
    {
      var cart := GetCart();
      if !cart.JArr? {
        return false;
      }
      SaveCartToStorage(JArr(RemoveAt(cart.items, index)));
      return true;
    }

    /** logoutUser: forget the stored user. */
    method LogoutUser()
      modifies this
      ensures storage == old(storage) - {UserKey}
      ensures IsLoggedIn() == Some(false)
    {
      storage := storage - {UserKey};
    }

    /** loginUser, once the server has replied: store the user only on success. */
    method LoginUser(result: Option<Json>) returns (stored: bool)
      modifies this
      ensures stored <==> LoginStores(result).Some?
      ensures stored ==> storage == old(storage)[UserKey := Serialized(LoginStores(result).value)]
      ensures !stored ==> storage == old(storage)
    {
      var user := LoginStores(result);
      if user.None? {
        return false;
      }
      storage := storage[UserKey := Serialized(user.value)];
      return true;
    }
  }
}
