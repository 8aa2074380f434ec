/**
  Properties of the concepts route across calls, and the one property the
  two routes share: they refuse exactly the same requests.
 */
module ConceptsLaws {
  import opened Js
  import opened Text
  import opened Http
  import opened AdminAuth
  import opened ConceptsRoute
  import InventoryRoute
  import InventoryStore

  /**
    The credential check runs before the body is looked at: two requests
    with the same headers and any bodies are refused alike, and neither
    touches the store.
   */
  lemma CredentialsBeforeBody(env: Env, req1: Request<Body>, req2: Request<Body>, id: nat, createdAt: int, concepts: seq<Concept>)
    requires req1.xAdminSecret == req2.xAdminSecret && req1.authorization == req2.authorization
    requires !FieldsPresent(req2.body)
    ensures Post(env, req1, id, createdAt, concepts).reply.Unauthorized?
        <==> Post(env, req2, id, createdAt, concepts).reply.Unauthorized?
    ensures Post(env, req2, id, createdAt, concepts).reply.Status() == 401
        || Post(env, req2, id, createdAt, concepts).reply.Status() == 400
    ensures !Authorized(env.adminSecret, req2.xAdminSecret, req2.authorization) ==>
              Post(env, req2, id, createdAt, concepts).reply.Status() == 401
    ensures Post(env, req2, id, createdAt, concepts).store == concepts
  {
  }

  /** The fields are checked for presence only: whitespace-only strings pass */
  lemma BlankFieldsAccepted(env: Env, req: Request<Body>, id: nat, createdAt: int, concepts: seq<Concept>)
    requires Authorized(env.adminSecret, req.xAdminSecret, req.authorization)
    requires req.body.code.Str? && req.body.name.Str? && req.body.baseUnit.Str?
    requires req.body.code.s != "" && req.body.name.s != "" && req.body.baseUnit.s != ""
    requires Blank(req.body.code.s) && Blank(req.body.name.s) && Blank(req.body.baseUnit.s)
    ensures Post(env, req, id, createdAt, concepts).reply.Created?
    ensures Post(env, req, id, createdAt, concepts).reply.value.code == req.body.code
    ensures Post(env, req, id, createdAt, concepts).reply.value.name == req.body.name
    ensures Post(env, req, id, createdAt, concepts).reply.value.baseUnit == req.body.baseUnit
  {
  }

  /**
    The normalised price agrees with `Number(defaultUnitPrice)` except for
    an absent value, which `Number` makes NaN, and the empty string, which
    is taken as 0 without consulting the number parser.
   */
  lemma PriceIsNumberElsewhere(parse: string -> Number, v: Value)
    ensures !v.Undefined? && v != Str("") ==> NormalizePrice(parse, v) == ToNumber(parse, v)
    ensures v.Undefined? ==> NormalizePrice(parse, v) == Finite(0.0) && ToNumber(parse, v) == NaN
  {
  }

  /** A successful POST grows the table by one concept, and every other outcome by none */
  lemma ExactlyOneCreated(env: Env, req: Request<Body>, id: nat, createdAt: int, concepts: seq<Concept>)
    ensures var out := Post(env, req, id, createdAt, concepts);
            |out.store| == |concepts| + (if out.reply.Created? then 1 else 0)
    ensures var out := Post(env, req, id, createdAt, concepts);
            out.reply.Created? <==> Authorized(env.adminSecret, req.xAdminSecret, req.authorization) && FieldsPresent(req.body)
    ensures var out := Post(env, req, id, createdAt, concepts);
            forall k :: 0 <= k < |concepts| ==> out.store[k] == concepts[k]
  {
  }

  /** Listing shows every stored concept the number of times it is stored, and nothing else */
  lemma ListingShowsAll(cs: seq<Concept>, c: Concept)
    ensures c in SortByNewest(cs) <==> c in cs
    ensures |SortByNewest(cs)| == |cs|
  {
    var r := SortByNewest(cs);
    assert multiset(r) == multiset(cs);
    assert c in r <==> c in multiset(r);
    assert |r| == |multiset(r)|;
  }

  /** A list already newest-first is listed as it stands, so listing twice is listing once */
  lemma {:induction false} SortedListedUnchanged(cs: seq<Concept>)
    requires NewestFirst(cs)
    ensures SortByNewest(cs) == cs
    decreases |cs|
  {
    if |cs| > 0 {
      var tail := cs[1..];
      assert NewestFirst(tail) by {
        forall i, j | 0 <= i < j < |tail|
          ensures tail[i].createdAt >= tail[j].createdAt
        {
          assert tail[i] == cs[i + 1] && tail[j] == cs[j + 1];
        }
      }
      SortedListedUnchanged(tail);
      assert cs == [cs[0]] + tail;
    }
  }

  lemma ListingIdempotent(cs: seq<Concept>)
    ensures SortByNewest(SortByNewest(cs)) == SortByNewest(cs)
  {
    SortedListedUnchanged(SortByNewest(cs));
  }

  /** A concept created later than every stored one heads the next listing */
  lemma NewestCreatedListedFirst(env: Env, req: Request<Body>, id: nat, createdAt: int, concepts: seq<Concept>)
    requires Post(env, req, id, createdAt, concepts).reply.Created?
    requires forall k :: 0 <= k < |concepts| ==> concepts[k].createdAt < createdAt
    ensures var out := Post(env, req, id, createdAt, concepts);
            |SortByNewest(out.store)| > 0 && SortByNewest(out.store)[0] == out.reply.value
  {
    var out := Post(env, req, id, createdAt, concepts);
    var c := out.reply.value;
    var r := SortByNewest(out.store);
    ListingShowsAll(out.store, c);
    assert c in out.store;
    var k :| 0 <= k < |r| && r[k] == c;
    ListingShowsAll(out.store, r[0]);
    assert r[0] in out.store;
  }

  /**
    Both handlers run the same credential check: for the same environment
    and headers, the inventory POST answers 401 exactly when the concepts
    POST does, whatever the bodies and the stores.
   */
  lemma SameCredentialDecision(env: Env, xAdminSecret: Option<string>, authorization: Option<string>,
                               inventoryBody: InventoryRoute.Body, supply: InventoryRoute.Supply, st: InventoryStore.Store,
                               conceptBody: Body, id: nat, createdAt: int, concepts: seq<Concept>)
    ensures InventoryRoute.Post(env, Request(xAdminSecret, authorization, inventoryBody), supply, st).reply.Unauthorized?
        <==> Post(env, Request(xAdminSecret, authorization, conceptBody), id, createdAt, concepts).reply.Unauthorized?
  {
  }
}
