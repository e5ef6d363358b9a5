/**
 * The `POST /api/projetos` handler: validation, the single create call on
 * the charter table, and the mapping of every outcome to an HTTP status and
 * body. The table's contents are a value (`Table`) with pure operations;
 * the class `CharterTable` holds that value in fields that its methods
 * update in place, and is proved against those operations.
 */
module ProjetosRoute {
  import opened Wrappers
  import opened Js
  import opened CharterValidation

  /** A stored charter: the validated data plus what the store assigns
      (id, timestamps and the schema default of autorizacaoFormal). */
  datatype Charter = Charter(
    id: nat,
    data: CharterData,
    autorizacaoFormal: bool,
    createdAt: int,
    updatedAt: int)

  datatype ResponseBody = ErrorBody(error: string) | Created(record: Charter)

  datatype Response = Response(status: nat, body: ResponseBody)

  /** The error message the handler sends for each failure. */
  function Message(f: Failure): string {
    match f
    case InvalidJson => "Invalid JSON in request body"
    case MissingFields => "Missing required fields"
    case InvalidDataTypes => "Invalid data types"
    case InvalidDateFormat => "Invalid cronogramaInicial date format"
    case CreateFailed => "Failed to create project charter"
  }

  /** The error response for a failure: 500 for the catch-all, 400 for the
      rest, each with its own message. */
  function ErrorResponse(f: Failure): (r: Response)
    ensures r.body.ErrorBody?
    ensures r.status == 500 <==> f == CreateFailed
    ensures r.status != 500 ==> r.status == 400
  {
    Response(if f == CreateFailed then 500 else 400, ErrorBody(Message(f)))
  }

  /** The charter table's contents and its auto-increment counter. */
  datatype Table = Table(rows: seq<Charter>, nextId: nat)

  /** The set of ids in use. */
  function Ids(t: Table): set<nat> {
    set i | 0 <= i < |t.rows| :: t.rows[i].id
  }

  /** Ids are positive, increase in insertion order (so none repeats) and
      stay below the counter; no row was updated before it was created. */
  predicate WellFormed(t: Table) {
    && t.nextId >= 1
    && (forall i, j :: 0 <= i < j < |t.rows| ==> t.rows[i].id < t.rows[j].id)
    && (forall i :: 0 <= i < |t.rows| ==> 1 <= t.rows[i].id < t.nextId)
    && (forall i :: 0 <= i < |t.rows| ==> t.rows[i].createdAt <= t.rows[i].updatedAt)
  }

  /** A successful create at time `now`: one new row, appended, holding
      `data` under a fresh id, with autorizacaoFormal at its default. */
  function Insert(t: Table, data: CharterData, now: int): (r: (Table, Charter))
    requires WellFormed(t)
    ensures WellFormed(r.0)
    ensures r.0.rows == t.rows + [r.1]
    ensures r.1.id !in Ids(t) && Ids(r.0) == Ids(t) + {r.1.id}
    ensures r.1.data == data && !r.1.autorizacaoFormal
  {
    var c := Charter(t.nextId, data, false, now, now);
    var t' := Table(t.rows + [c], t.nextId + 1);
    assert Ids(t') == Ids(t) + {c.id} by {
      assert forall i :: 0 <= i < |t.rows| ==> t'.rows[i] == t.rows[i];
      assert t'.rows[|t.rows|] == c;
    }
    (t', c)
  }

  /** One POST: what `request.json()` gave, the time of the insert and
      whether the database rejects it. */
  datatype Request = Request(read: BodyRead, now: int, storeFails: bool)

  /** The handler as a function of the table: every validation failure
      answers before the table is touched, a rejected insert answers 500
      with the table unchanged, and success appends exactly one row and
      answers 201 with it. */
  function Handle(t: Table, req: Request, parse: DateParser): (r: (Table, Response))
    requires WellFormed(t)
    ensures WellFormed(r.0)
    ensures Validate(req.read, parse).Failure? ==>
      r == (t, ErrorResponse(Validate(req.read, parse).error))
    ensures Validate(req.read, parse).Success? && req.storeFails ==>
      r == (t, ErrorResponse(CreateFailed))
    ensures Validate(req.read, parse).Success? && !req.storeFails ==>
      && |r.0.rows| == |t.rows| + 1
      && r.0.rows[..|t.rows|] == t.rows
      && var c := r.0.rows[|t.rows|];
      && c.data == Validate(req.read, parse).value
      && !c.autorizacaoFormal
      && c.id !in Ids(t)
      && r.1 == Response(201, Created(c))
  {
    match Validate(req.read, parse)
    case Failure(f) => (t, ErrorResponse(f))
    case Success(d) =>
      if req.storeFails then (t, ErrorResponse(CreateFailed))
      else
        var (t', c) := Insert(t, d, req.now);
        assert t'.rows[..|t.rows|] == t.rows;
        (t', Response(201, Created(c)))
  }

  /** The charter table, updated in place by the create call. */
  class CharterTable {
    var rows: seq<Charter>
    var nextId: nat

    function State(): Table
      reads this
    {
      Table(rows, nextId)
    }

    ghost predicate Valid()
      reads this
    {
      WellFormed(State())
    }

    constructor ()
      ensures Valid() && rows == []
    {
      rows := [];
      nextId := 1;
    }

    /** `prisma.termoAberturaProjeto.create({ data })` at time `now`;
        `fails` stands for whatever makes the database reject the insert,
        in which case nothing changes. */
    method Create(data: CharterData, now: int, fails: bool) returns (r: Option<Charter>)
      requires Valid()
      modifies this
      ensures Valid()
      ensures fails ==> r == None && State() == old(State())
      ensures !fails ==> r.Some? && (State(), r.value) == Insert(old(State()), data, now)
    {
      if fails {
        r := None;
        return;
      }
      var c := Charter(nextId, data, false, now, now);
      rows := rows + [c];
      nextId := nextId + 1;
      r := Some(c);
    }
  }

  /** The handler: `read` is what `request.json()` gave, `parse` the
      engine's date parser, `now` the insert time and `storeFails` whether
      the database rejects the insert. */
  method Post(table: CharterTable, read: BodyRead, parse: DateParser, now: int, storeFails: bool)
    returns (resp: Response)
    requires table.Valid()
    modifies table
    ensures table.Valid()
    ensures (table.State(), resp) == Handle(old(table.State()), Request(read, now, storeFails), parse)
  {
    var v := Validate(read, parse);
    if v.Failure? {
      resp := ErrorResponse(v.error);
      return;
    }
    var created := table.Create(v.value, now, storeFails);
    match created
    case None =>
      resp := ErrorResponse(CreateFailed);
    case Some(c) =>
      resp := Response(201, Created(c));
  }

  /** A sequence of POSTs against the same table, all with one date parser. */
  function Serve(t: Table, reqs: seq<Request>, parse: DateParser): (r: Table)
    requires WellFormed(t)
    ensures WellFormed(r)
    decreases |reqs|
  {
    if reqs == [] then t
    else Serve(Handle(t, reqs[0], parse).0, reqs[1..], parse)
  }

  /** The data one request adds to the table: its validated payload when
      validation passes and the database takes the insert, else nothing. */
  function StoredOne(req: Request, parse: DateParser): seq<CharterData> {
    match Validate(req.read, parse)
    case Success(d) => if req.storeFails then [] else [d]
    case Failure(_) => []
  }

  /** The data of the requests, in order, that pass validation and whose
      insert the database takes. */
  function Stored(reqs: seq<Request>, parse: DateParser): seq<CharterData> {
    if reqs == [] then [] else StoredOne(reqs[0], parse) + Stored(reqs[1..], parse)
  }
}
