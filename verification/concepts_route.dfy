/**
  The concepts API: POST creates one priced concept after the shared
  credential check and a presence check on three fields; GET lists all
  concepts, newest first.
 */
module ConceptsRoute {
  import opened Js
  import opened Http
  import opened AdminAuth

  /**
    A stored concept. `code`, `name` and `baseUnit` are stored as the JSON
    values the client sent; whether they fit the store's column types is the
    store's business.
   */
  datatype Concept = Concept(
    id: nat,
    code: Value,
    name: Value,
    baseUnit: Value,
    defaultUnitPrice: Number,
    createdAt: int)

  /** The fields the POST handler destructures from the JSON body */
  datatype Body = Body(code: Value, name: Value, baseUnit: Value, defaultUnitPrice: Value)

  const MissingFields: string := "Missing fields"

  /** `!code || !name || !baseUnit` is false: all three are truthy, with no trimming */
  predicate FieldsPresent(b: Body)
    ensures FieldsPresent(b) ==>
              && b.code != Undefined && b.code != Null && b.code != Str("")
              && b.name != Undefined && b.name != Null && b.name != Str("")
              && b.baseUnit != Undefined && b.baseUnit != Null && b.baseUnit != Str("")
    ensures b.code.Str? && b.name.Str? && b.baseUnit.Str? ==>
              (FieldsPresent(b) <==> b.code.s != "" && b.name.s != "" && b.baseUnit.s != "")
  {
    Truthy(b.code) && Truthy(b.name) && Truthy(b.baseUnit)
  }

  /**
    The price written to the store: 0 for `undefined`, `null` and the empty
    string, the numeric coercion of anything else.
   */
  function NormalizePrice(parse: string -> Number, v: Value): (r: Number)
    ensures v.Undefined? || v.Null? || v == Str("") ==> r == Finite(0.0)
    ensures v.Num? ==> r == v.n
    ensures v.Str? && v.s != "" ==> r == parse(v.s)
    ensures v.Bool? ==> r == Finite(if v.b then 1.0 else 0.0)
    ensures v.Obj? ==> r == parse(v.text)
  {
    if v.Undefined? || v.Null? || v == Str("") then Finite(0.0) else ToNumber(parse, v)
  }

  /**
    POST /api/concepts. The credential check comes first; then the three
    required fields; an accepted request appends exactly one concept, with
    the store's id and creation time, and returns it with 201.
   */
  function Post(env: Env, req: Request<Body>, id: nat, createdAt: int, concepts: seq<Concept>)
    : (out: Handled<Concept, seq<Concept>>)
    ensures out.reply.Unauthorized? <==> !Authorized(env.adminSecret, req.xAdminSecret, req.authorization)
    ensures out.reply.BadRequest? <==>
              Authorized(env.adminSecret, req.xAdminSecret, req.authorization) && !FieldsPresent(req.body)
    ensures out.reply.BadRequest? ==> out.reply.error == MissingFields && out.reply.detail.None?
    ensures !out.reply.InternalError?
    ensures !out.reply.Created? ==> out.store == concepts
    ensures out.reply.Created? ==>
              var c := out.reply.value;
              && out.store == concepts + [c]
              && c.id == id && c.createdAt == createdAt
              && c.code == req.body.code && c.name == req.body.name && c.baseUnit == req.body.baseUnit
              && c.defaultUnitPrice == NormalizePrice(env.parseNumber, req.body.defaultUnitPrice)
  {
    var b := req.body;
    if !Authorized(env.adminSecret, req.xAdminSecret, req.authorization) then
      Handled(Unauthorized, concepts)
    else if !Truthy(b.code) || !Truthy(b.name) || !Truthy(b.baseUnit) then
      Handled(BadRequest(MissingFields, None), concepts)
    else
      var created := Concept(id, b.code, b.name, b.baseUnit, NormalizePrice(env.parseNumber, b.defaultUnitPrice), createdAt);
      Handled(Created(created), concepts + [created])
  }

  /** `orderBy: { createdAt: "desc" }` */
  predicate NewestFirst(cs: seq<Concept>) {
    forall i, j :: 0 <= i < j < |cs| ==> cs[i].createdAt >= cs[j].createdAt
  }

  /** Puts `c` in front of the first concept that is not newer than `c`, equal times included */
  function InsertByNewest(c: Concept, cs: seq<Concept>): (r: seq<Concept>)
    requires NewestFirst(cs)
    ensures NewestFirst(r)
    ensures multiset(r) == multiset(cs) + multiset{c}
    ensures |r| == |cs| + 1 && (r[0] == c || (|cs| > 0 && r[0] == cs[0]))
  {
    if |cs| == 0 || c.createdAt >= cs[0].createdAt then
      PrependNewest(c, cs);
      [c] + cs
    else
      var rest := InsertByNewest(c, cs[1..]);
      assert cs == [cs[0]] + cs[1..];
      PrependNewest(cs[0], rest);
      [cs[0]] + rest
  }

  /** A concept no older than the head of a newest-first list can go in front of it */
  lemma PrependNewest(x: Concept, rest: seq<Concept>)
    requires NewestFirst(rest)
    requires rest == [] || x.createdAt >= rest[0].createdAt
    ensures NewestFirst([x] + rest)
  {
    var r := [x] + rest;
    forall i, j | 0 <= i < j < |r|
      ensures r[i].createdAt >= r[j].createdAt
    {
      if i > 0 {
        assert r[i] == rest[i - 1] && r[j] == rest[j - 1];
      } else {
        assert r[j] == rest[j - 1];
      }
    }
  }

  /**
    GET /api/concepts: all concepts, newest first. The store's order among
    equal `createdAt` values is not promised; this sort keeps store order.
   */
  function SortByNewest(cs: seq<Concept>): (r: seq<Concept>)
    ensures NewestFirst(r)
    ensures multiset(r) == multiset(cs)
  {
    if |cs| == 0 then []
    else
      assert cs == [cs[0]] + cs[1..];
      InsertByNewest(cs[0], SortByNewest(cs[1..]))
  }
}
