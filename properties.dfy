/**
 * Properties of the creation endpoint that relate several calls or pin
 * down particular payloads: the zero, null and negative budgets, the date
 * parser being consulted last, the keys that are ignored, non-object
 * bodies, distinct error responses, and what a sequence of POSTs leaves in
 * the table.
 */
module CharterProperties {
  import opened Wrappers
  import opened Js
  import opened CharterValidation
  import opened ProjetosRoute

  /** A budget of 0 is never taken for a missing one: with the other
      presence-checked fields truthy the presence guard passes. */
  lemma ZeroBudgetIsPresent(body: JsValue, parse: DateParser)
    requires !Nullish(body)
    requires forall k :: k in TruthyKeys ==> Truthy(Lookup(body, k))
    requires Lookup(body, OrcamentoEstimado) == Num(Finite(0.0))
    ensures Validate(Parsed(body), parse) != Failure(MissingFields)
  {
  }

  /** A null budget passes the presence guard (only undefined fails it) and
      is then rejected by the type guard, `typeof null` being "object". */
  lemma NullBudgetIsInvalidType(body: JsValue, parse: DateParser)
    requires !Nullish(body)
    requires forall k :: k in TruthyKeys ==> Truthy(Lookup(body, k))
    requires Lookup(body, OrcamentoEstimado) == Null
    ensures Validate(Parsed(body), parse) == Failure(InvalidDataTypes)
  {
  }

  /** The budget has no sign or range check: with non-empty text fields and
      a parsable schedule string, any number (zero, negative, infinite) is
      accepted and forwarded unchanged. */
  lemma AnyNumberBudgetAccepted(body: JsValue, parse: DateParser, n: Number)
    requires !Nullish(body)
    requires forall k :: k in TextKeys ==> Lookup(body, k).Str? && Lookup(body, k).s != ""
    requires Lookup(body, CronogramaInicial).Str? && Lookup(body, CronogramaInicial).s != ""
    requires parse(Lookup(body, CronogramaInicial).s).Some?
    requires Lookup(body, OrcamentoEstimado) == Num(n)
    ensures Validate(Parsed(body), parse).Success?
    ensures Validate(Parsed(body), parse).value.orcamentoEstimado == n
  {
  }

  /** The date parser is consulted only after the presence and type guards
      pass: any earlier outcome is the same whatever the parser. */
  lemma ParserUnusedBeforeDateGuard(read: BodyRead, p1: DateParser, p2: DateParser)
    requires !Validate(read, p1).Success? && Validate(read, p1) != Failure(InvalidDateFormat)
    ensures Validate(read, p2) == Validate(read, p1)
  {
  }

  /** Only the ten destructured keys matter: two object bodies that agree on
      them are judged alike and, if accepted, yield the same data. */
  lemma ExtraKeysIgnored(m1: map<string, JsValue>, m2: map<string, JsValue>, parse: DateParser)
    requires forall k :: k in CharterKeys ==> Lookup(Obj(m1), k) == Lookup(Obj(m2), k)
    ensures Validate(Parsed(Obj(m1)), parse) == Validate(Parsed(Obj(m2)), parse)
  {
  }

  /** The autorizacaoFormal sent by the client has no effect on the outcome. */
  lemma AutorizacaoFormalIgnored(m: map<string, JsValue>, v: JsValue, parse: DateParser)
    ensures Validate(Parsed(Obj(m["autorizacaoFormal" := v])), parse)
         == Validate(Parsed(Obj(m)), parse)
  {
  }

  /** A body that parsed to a primitive or an array destructures to all
      undefined fields, so it gets "Missing required fields". */
  lemma NonObjectBodyIsMissingFields(body: JsValue, parse: DateParser)
    requires body.Bool? || body.Num? || body.Str? || body.Arr? || body.DateVal?
    ensures Validate(Parsed(body), parse) == Failure(MissingFields)
  {
  }

  /** No two failures share a response. */
  lemma ErrorResponsesDistinct(f: Failure, g: Failure)
    requires f != g
    ensures ErrorResponse(f) != ErrorResponse(g)
  {
  }

  /** A JSON body cannot hold a Date object, so an accepted JSON payload
      always carried its schedule as a string. */
  lemma JsonScheduleIsString(body: JsValue, parse: DateParser)
    requires IsJson(body)
    requires Validate(Parsed(body), parse).Success?
    ensures Lookup(body, CronogramaInicial).Str?
  {
  }

  /** The data held by a list of rows, in order. */
  function DataOf(rows: seq<Charter>): seq<CharterData> {
    if rows == [] then [] else [rows[0].data] + DataOf(rows[1..])
  }

  lemma {:induction false} DataOfConcat(a: seq<Charter>, b: seq<Charter>)
    ensures DataOf(a + b) == DataOf(a) + DataOf(b)
  {
    if a != [] {
      assert (a + b)[1..] == a[1..] + b;
      DataOfConcat(a[1..], b);
    } else {
      assert a + b == b;
    }
  }

  /** Row lists that each extend the previous one: the rows `c` adds to `a`
      are those `b` adds followed by those `c` adds to `b`. */
  lemma ExtendsChain(a: seq<Charter>, b: seq<Charter>, c: seq<Charter>)
    requires |a| <= |b| && b[..|a|] == a
    requires |b| <= |c| && c[..|b|] == b
    ensures |a| <= |c| && c[..|a|] == a
    ensures DataOf(c[|a|..]) == DataOf(b[|a|..]) + DataOf(c[|b|..])
  {
    assert c[..|a|] == c[..|b|][..|a|];
    assert c[|a|..] == b[|a|..] + c[|b|..];
    DataOfConcat(b[|a|..], c[|b|..]);
  }

  /** One POST leaves the existing rows alone, adds the data `Stored`
      records for it, and adds no row with autorizacaoFormal set. */
  lemma HandleStep(t: Table, req: Request, parse: DateParser)
    requires WellFormed(t)
    ensures var t1 := Handle(t, req, parse).0;
      && |t1.rows| >= |t.rows|
      && t1.rows[..|t.rows|] == t.rows
      && DataOf(t1.rows[|t.rows|..]) == StoredOne(req, parse)
      && (NoneAuthorized(t) ==> NoneAuthorized(t1))
  {
  }

  /** After any sequence of POSTs the existing rows are untouched and the
      rows added hold exactly the payloads that passed validation and whose
      insert succeeded, in request order: no rejected request ever reaches
      the table. */
  lemma {:induction false} ServeStoresExactlyAccepted(t: Table, reqs: seq<Request>, parse: DateParser)
    requires WellFormed(t)
    ensures |Serve(t, reqs, parse).rows| >= |t.rows|
    ensures Serve(t, reqs, parse).rows[..|t.rows|] == t.rows
    ensures DataOf(Serve(t, reqs, parse).rows[|t.rows|..]) == Stored(reqs, parse)
    decreases |reqs|
  {
    if reqs == [] {
      assert Serve(t, reqs, parse).rows[|t.rows|..] == [];
    } else {
      var t1 := Handle(t, reqs[0], parse).0;
      var rest := reqs[1..];
      HandleStep(t, reqs[0], parse);
      ServeStoresExactlyAccepted(t1, rest, parse);
      var s := Serve(t1, rest, parse);
      assert Serve(t, reqs, parse) == s;
      ExtendsChain(t.rows, t1.rows, s.rows);
    }
  }

  /** No row of the table has autorizacaoFormal set. */
  predicate NoneAuthorized(t: Table) {
    forall i :: 0 <= i < |t.rows| ==> !t.rows[i].autorizacaoFormal
  }

  /** No sequence of POSTs sets autorizacaoFormal on any row, whatever the
      payloads carried: a table without authorized charters keeps none. */
  lemma {:induction false} ServeNeverAuthorizes(t: Table, reqs: seq<Request>, parse: DateParser)
    requires WellFormed(t) && NoneAuthorized(t)
    ensures NoneAuthorized(Serve(t, reqs, parse))
    decreases |reqs|
  {
    if reqs != [] {
      var t1 := Handle(t, reqs[0], parse).0;
      HandleStep(t, reqs[0], parse);
      ServeNeverAuthorizes(t1, reqs[1..], parse);
      assert Serve(t, reqs, parse) == Serve(t1, reqs[1..], parse);
    }
  }
}
