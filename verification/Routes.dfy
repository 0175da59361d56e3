/** How the fake provider names endpoints. */
module Routes {
  import opened Text

  function BeforeQuery(s: string): string {
    if s == "" || s[0] == '?' then "" else [s[0]] + BeforeQuery(s[1..])
  }

  function NormalizePath(endpoint: string): string {
    var path := BeforeQuery(endpoint);
    if path == "" then "/"
    else
      var rooted := if path[0] == '/' then path else "/" + path;
      if rooted != "/" && rooted[|rooted| - 1] == '/' then rooted[..|rooted| - 1] else rooted
  }

  function CutSpace(s: string): Option<(string, string)> {
    if s == "" then None
    else if s[0] == ' ' then Some(("", s[1..]))
    else match CutSpace(s[1..])
      case None => None
      case Some((before, after)) => Some(([s[0]] + before, after))
  }

  /** The key a queued response is filed under. */
  function NormalizeKey(endpoint: string): string {
    match CutSpace(endpoint)
    case Some((method_, path)) => ToUpper(method_) + " " + NormalizePath(path)
    case None => NormalizePath(endpoint)
  }

  lemma {:induction false} PlainTextIsWhole(s: string)
    requires ' ' !in s && '?' !in s
    ensures BeforeQuery(s) == s && CutSpace(s).None?
  {
    if s != "" {
      PlainTextIsWhole(s[1..]);
    }
  }

  /** A rooted path without a query is its own key. */
  lemma PlainPathIsItsKey(path: string)
    requires ' ' !in path && '?' !in path && path != "" && path[0] == '/' && path[|path| - 1] != '/'
    ensures NormalizeKey(path) == path
  {
    PlainTextIsWhole(path);
  }

  predicate IsOrderPath(path: string) {
    HasPrefix(path, "/order/") && HasSuffix(path, "/transactions")
  }

  function RouteKey(path: string): string {
    if IsOrderPath(path) then "/order/{orderId}/transactions"
    else if HasPrefix(path, "/transactions/") then "/transactions/{id}"
    else if HasPrefix(path, "/subscriptions/") then "/subscriptions/{subscriptionId}"
    else if HasPrefix(path, "/refunds/") then "/refunds/{transactionHid}"
    else path
  }

  /** Most specific first. */
  function LookupKeys(method_: string, path: string): seq<string> {
    [method_ + " " + path, path, method_ + " " + RouteKey(path), RouteKey(path)]
  }

  function TrimPrefix(s: string, prefix: string): string {
    if HasPrefix(s, prefix) then s[|prefix|..] else s
  }

  function TrimSuffix(s: string, suffix: string): string {
    if HasSuffix(s, suffix) then s[..|s| - |suffix|] else s
  }

  /** The endpoints a default answer exists for. */
  datatype Route =
    | HostedPage
    | TokenCheckout
    | TokenCharge
    | TokenSubscription
    | Refund(id: string)
    | AllTransactions
    | OneTransaction(id: string)
    | OrderTransactions(orderId: string)
    | StoreSubscriptions
    | OneSubscription(id: string)
    | CancelSubscription(id: string)
    | NotFound

  function RouteOf(method_: string, path: string): Route {
    if method_ == "POST" then
      if path in {"/checkout", "/checkout-subscription", "/checkout-schedule"} then HostedPage
      else if path == "/checkout-token" then TokenCheckout
      else if path == "/token/transactions" then TokenCharge
      else if path == "/token/subscriptions" then TokenSubscription
      else if HasPrefix(path, "/refunds/") then Refund(TrimPrefix(path, "/refunds/"))
      else NotFound
    else if method_ == "GET" then
      if path == "/transactions" then AllTransactions
      else if HasPrefix(path, "/transactions/") then OneTransaction(TrimPrefix(path, "/transactions/"))
      else if IsOrderPath(path) then OrderTransactions(TrimSuffix(TrimPrefix(path, "/order/"), "/transactions"))
      else if path == "/subscriptions" then StoreSubscriptions
      else if HasPrefix(path, "/subscriptions/") then OneSubscription(TrimPrefix(path, "/subscriptions/"))
      else NotFound
    else if method_ == "PUT" && HasPrefix(path, "/subscriptions/") then
      CancelSubscription(TrimPrefix(path, "/subscriptions/"))
    else NotFound
  }

  // ----- The names, family by family

  /** Only the path up to the first question mark counts. */
  lemma {:induction false} QueryIsDropped(path: string, query: string)
    requires '?' !in path
    ensures BeforeQuery(path + "?" + query) == path && BeforeQuery(path) == path
  {
    var s := path + "?" + query;
    if path != "" {
      QueryIsDropped(path[1..], query);
      assert s[1..] == path[1..] + "?" + query;
    }
  }

  /** Paths are rooted and lose one slash at the end. */
  lemma PathsExactly(path: string, query: string)
    requires '?' !in path
    ensures NormalizePath(path + "?" + query) == NormalizePath(path)
    ensures NormalizePath("") == "/" && NormalizePath("/") == "/"
    ensures path != "" && path[0] != '/' ==> NormalizePath(path) == NormalizePath("/" + path)
    ensures NormalizePath("/" + path + "/") == "/" + path
    ensures path != "" && path[0] == '/' && path[|path| - 1] != '/' ==> NormalizePath(path) == path
  {
    QueryIsDropped(path, query);
    QueryIsDropped("/" + path, query);
    QueryIsDropped("/" + path + "/", query);
    QueryIsDropped("", query);
    QueryIsDropped("/", query);
    var slashed := "/" + path + "/";
    assert slashed[0] == '/' && slashed[|slashed| - 1] == '/' && slashed[..|slashed| - 1] == "/" + path;
  }

  lemma {:induction false} CutAtSpace(before: string, after: string)
    requires ' ' !in before
    ensures CutSpace(before + " " + after) == Some((before, after)) && CutSpace(before).None?
  {
    var s := before + " " + after;
    if before == "" {
      assert s[1..] == after;
    } else {
      CutAtSpace(before[1..], after);
      assert s[1..] == before[1..] + " " + after;
      assert [s[0]] + before[1..] == before;
    }
  }

  /** An endpoint may name its method, in either case. */
  lemma KeysExactly(method_: string, path: string)
    requires ' ' !in method_
    ensures NormalizeKey(method_ + " " + path) == ToUpper(method_) + " " + NormalizePath(path)
    ensures NormalizeKey(method_) == NormalizePath(method_)
  {
    CutAtSpace(method_, path);
  }

  /** The four families of paths with a part that varies, and all other paths. */
  lemma RouteKeysExactly(part: string, path: string)
    ensures RouteKey("/order/" + part + "/transactions") == "/order/{orderId}/transactions"
    ensures RouteKey("/transactions/" + part) == "/transactions/{id}"
    ensures RouteKey("/subscriptions/" + part) == "/subscriptions/{subscriptionId}"
    ensures RouteKey("/refunds/" + part) == "/refunds/{transactionHid}"
    ensures !HasPrefix(path, "/transactions/") && !HasPrefix(path, "/subscriptions/") && !HasPrefix(path, "/refunds/")
            && !(HasPrefix(path, "/order/") && HasSuffix(path, "/transactions")) ==>
              RouteKey(path) == path
  {
    hide RouteKey, HasPrefix, HasSuffix;
    OrderKey(part);
    PartKey("/transactions/", part);
    PartKey("/subscriptions/", part);
    PartKey("/refunds/", part);
    if !HasPrefix(path, "/transactions/") && !HasPrefix(path, "/subscriptions/") && !HasPrefix(path, "/refunds/")
       && !(HasPrefix(path, "/order/") && HasSuffix(path, "/transactions")) {
      OwnKey(path);
    }
  }

  lemma OrderKey(part: string)
    ensures RouteKey("/order/" + part + "/transactions") == "/order/{orderId}/transactions"
  {
    var order := "/order/" + part + "/transactions";
    assert order[..7] == "/order/" && order[|order| - 13..] == "/transactions";
  }

  lemma PartKey(prefix: string, part: string)
    requires prefix in {"/transactions/", "/subscriptions/", "/refunds/"}
    ensures RouteKey(prefix + part) ==
            if prefix == "/transactions/" then "/transactions/{id}"
            else if prefix == "/refunds/" then "/refunds/{transactionHid}"
            else "/subscriptions/{subscriptionId}"
  {
    hide HasPrefix, HasSuffix;
    StartsDifferently(prefix, part);
    assert !HasPrefix(prefix + part, "/order/");
  }

  lemma OwnKey(path: string)
    requires !HasPrefix(path, "/transactions/") && !HasPrefix(path, "/subscriptions/") && !HasPrefix(path, "/refunds/")
    requires !(HasPrefix(path, "/order/") && HasSuffix(path, "/transactions"))
    ensures RouteKey(path) == path
  {
  }

  lemma StartsDifferently(prefix: string, part: string)
    requires prefix in {"/transactions/", "/subscriptions/", "/refunds/"}
    ensures forall other :: other in {"/order/", "/transactions/", "/subscriptions/", "/refunds/"} ==>
              (HasPrefix(prefix + part, other) <==> other == prefix)
  {
    var path := prefix + part;
    assert path[..|prefix|] == prefix && path[1] == prefix[1];
    forall other | other in {"/order/", "/transactions/", "/subscriptions/", "/refunds/"}
      ensures HasPrefix(path, other) <==> other == prefix
    {
      if HasPrefix(path, other) {
        assert path[..|other|][1] == other[1];
      }
    }
  }

  /** Most specific first: method and path, path, method and route, route. */
  lemma LookupKeysExactly(method_: string, path: string)
    ensures |LookupKeys(method_, path)| == 4
    ensures LookupKeys(method_, path)[0] == method_ + " " + path && LookupKeys(method_, path)[1] == path
    ensures LookupKeys(method_, path)[2] == method_ + " " + RouteKey(path)
    ensures LookupKeys(method_, path)[3] == RouteKey(path)
  {
  }

  lemma PartAfter(prefix: string, part: string)
    ensures TrimPrefix(prefix + part, prefix) == part
  {
  }

  lemma OrderPart(part: string)
    ensures TrimSuffix(TrimPrefix("/order/" + part + "/transactions", "/order/"), "/transactions") == part
  {
    var path := "/order/" + part + "/transactions";
    assert path[..7] == "/order/" && path[7..] == part + "/transactions";
    var rest := part + "/transactions";
    assert rest[|rest| - 13..] == "/transactions" && rest[..|rest| - 13] == part;
  }

  /** Which endpoints with a part that varies have a default answer. */
  lemma RoutesExactly(part: string)
    ensures RouteOf("POST", "/refunds/" + part) == Refund(part)
    ensures RouteOf("GET", "/transactions/" + part) == OneTransaction(part)
    ensures RouteOf("GET", "/order/" + part + "/transactions") == OrderTransactions(part)
    ensures RouteOf("GET", "/subscriptions/" + part) == OneSubscription(part)
    ensures RouteOf("PUT", "/subscriptions/" + part) == CancelSubscription(part)
  {
    hide RouteOf;
    RefundRoute(part);
    TransactionRoute(part);
    OrderRoute(part);
    SubscriptionRoutes(part);
  }

  lemma RefundRoute(part: string)
    ensures RouteOf("POST", "/refunds/" + part) == Refund(part)
  {
    hide TrimPrefix, HasPrefix, HasSuffix;
    assert ("/refunds/" + part)[1] == 'r';
    PartAfter("/refunds/", part);
    StartsDifferently("/refunds/", part);
  }

  lemma TransactionRoute(part: string)
    ensures RouteOf("GET", "/transactions/" + part) == OneTransaction(part)
  {
    hide TrimPrefix;
    PartAfter("/transactions/", part);
    StartsDifferently("/transactions/", part);
  }

  lemma OrderRoute(part: string)
    ensures RouteOf("GET", "/order/" + part + "/transactions") == OrderTransactions(part)
  {
    hide TrimPrefix, TrimSuffix;
    OrderPart(part);
    var order := "/order/" + part + "/transactions";
    assert order[..7] == "/order/" && order[|order| - 13..] == "/transactions";
    assert order[..14][1] == 'o' && "/transactions/"[1] == 't';
  }

  lemma SubscriptionRoutes(part: string)
    ensures RouteOf("GET", "/subscriptions/" + part) == OneSubscription(part)
    ensures RouteOf("PUT", "/subscriptions/" + part) == CancelSubscription(part)
  {
    hide TrimPrefix;
    PartAfter("/subscriptions/", part);
    StartsDifferently("/subscriptions/", part);
  }

  /** And the fixed ones. */
  lemma FixedRoutes(method_: string, path: string)
    ensures RouteOf(method_, path).TokenCharge? <==> method_ == "POST" && path == "/token/transactions"
    ensures RouteOf(method_, path).TokenSubscription? <==> method_ == "POST" && path == "/token/subscriptions"
    ensures RouteOf(method_, path).TokenCheckout? <==> method_ == "POST" && path == "/checkout-token"
    ensures RouteOf(method_, path).HostedPage? <==>
            method_ == "POST" && path in {"/checkout", "/checkout-subscription", "/checkout-schedule"}
    ensures RouteOf(method_, path).AllTransactions? <==> method_ == "GET" && path == "/transactions"
    ensures RouteOf(method_, path).StoreSubscriptions? <==> method_ == "GET" && path == "/subscriptions"
    ensures method_ !in {"GET", "POST", "PUT"} ==> RouteOf(method_, path) == NotFound
  {
    var plans := "/subscriptions";
    assert plans[..14][1] == 's' && "/transactions/"[1] == 't';
    assert plans[..7][1] == 's' && "/order/"[1] == 'o';
  }
}
