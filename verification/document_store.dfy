/**
 * The document store of server.js: one table `documents` with `id` as its
 * primary key, an opaque `snapshot` and an `updated_at` timestamp, and the
 * HTTP handlers that read and write it.
 *
 * The SQL engine is replaced by a map from id to row. `datetime('now')` is
 * the integer parameter `now` (seconds; its text form sorts in time order).
 * JSON.stringify on the way in and JSON.parse on the way out are taken as
 * inverse, so a row keeps the snapshot value itself. How the write of the
 * database file went is the parameter `write`; `file` is what the database
 * file holds.
 */
module DocumentStore {
  import opened Wrappers

  /** The `snapshot` field of a parsed JSON request body. Objects and arrays
      are opaque and kept as their serialized text. */
  datatype JsonValue =
    | Undefined
    | Null
    | Boolean(b: bool)
    | Number(n: real)
    | Text(s: string)
    | Structured(encoded: string)

  /** JavaScript truthiness, as tested by `if (!snapshot)`. JSON has no NaN,
      and -0 and 0 are the same `real`. */
  function Truthy(v: JsonValue): (b: bool)
    ensures !b <==> v == Undefined || v == Null || v == Boolean(false) || v == Number(0.0) || v == Text("")
    ensures v.Structured? ==> b
  {
    match v
    case Undefined => false
    case Null => false
    case Boolean(b) => b
    case Number(n) => n != 0.0
    case Text(s) => s != ""
    case Structured(_) => true
  }

  datatype Row = Row(snapshot: JsonValue, updatedAt: int)

  /** The `documents` table: the primary key maps to the rest of the row. */
  type Table = map<string, Row>

  /** One element of the list handler's `documents` array. */
  datatype Entry = Entry(id: string, updatedAt: int)

  datatype Body =
    | HealthStatus(status: string)
    | Document(snapshot: JsonValue)
    | Success
    | Documents(documents: seq<Entry>)
    | Failure(error: string)

  datatype Response = Response(status: int, body: Body)

  const NotFound := Response(404, Failure("Document not found"))
  const SnapshotRequired := Response(400, Failure("Snapshot is required"))
  const SaveFailed := Response(500, Failure("Failed to save document"))

  /** GET /api/document/:id on the table `rows`. */
  function Fetch(rows: Table, id: string): (r: Response)
    ensures r.status == 200 <==> id in rows
    ensures id in rows ==> r.body == Document(rows[id].snapshot)
    ensures id !in rows ==> r == NotFound
  {
    if id in rows then Response(200, Document(rows[id].snapshot)) else NotFound
  }

  /** What the database file holds: nothing yet, the export of a table, or
      whatever a failed write left behind after truncating it. */
  datatype FileImage = NoFile | Image(rows: Table) | Damaged

  /** How saveDatabase ended. `Unwritten`: db.export or opening the file
      threw, so the file is untouched. `Truncated`: the file was opened for
      writing, which empties it, and the write then threw. */
  datatype WriteOutcome = Written | Unwritten | Truncated

  /** The table, the file image and the response after a POST. */
  datatype Saved = Saved(rows: Table, file: FileImage, response: Response)

  /** POST /api/document/:id: validate, INSERT OR REPLACE, then write the file. */
  function Store(rows: Table, file: FileImage, id: string, snapshot: JsonValue, now: int, write: WriteOutcome): (p: Saved)
    ensures !Truthy(snapshot) ==> p == Saved(rows, file, SnapshotRequired)
    ensures Truthy(snapshot) ==>
      && p.rows.Keys == rows.Keys + {id}
      && p.rows[id] == Row(snapshot, now)
      && (forall k :: k in rows && k != id ==> p.rows[k] == rows[k])
    ensures Truthy(snapshot) ==> (p.response == Response(200, Success) <==> write == Written)
    ensures Truthy(snapshot) && write == Written ==> p.file == Image(p.rows)
    ensures Truthy(snapshot) && write != Written ==> p.response == SaveFailed
    ensures Truthy(snapshot) && write == Unwritten ==> p.file == file
    ensures Truthy(snapshot) && write == Truncated ==> p.file == Damaged
  {
    if !Truthy(snapshot) then Saved(rows, file, SnapshotRequired)
    else
      var rows' := rows[id := Row(snapshot, now)];
      match write
      case Written => Saved(rows', Image(rows'), Response(200, Success))
      case Unwritten => Saved(rows', file, SaveFailed)
      case Truncated => Saved(rows', Damaged, SaveFailed)
  }

  /** A POST request with the time it was served and the outcome of the file write. */
  datatype Write = Write(id: string, snapshot: JsonValue, now: int, write: WriteOutcome)

  /** The table after serving a sequence of POST requests in order. */
  function Replay(rows: Table, writes: seq<Write>): Table
    decreases |writes|
  {
    if writes == [] then rows
    else
      var w := writes[0];
      Replay(Store(rows, NoFile, w.id, w.snapshot, w.now, w.write).rows, writes[1..])
  }

  /** A write with a truthy snapshot sets its row, whatever the file write does. */
  lemma ReplayStored(rows: Table, writes: seq<Write>)
    requires writes != [] && Truthy(writes[0].snapshot)
    ensures Replay(rows, writes) == Replay(rows[writes[0].id := Row(writes[0].snapshot, writes[0].now)], writes[1..])
  {
  }

  /** A write that changes the row of `id`. */
  predicate Overwrites(w: Write, id: string) {
    w.id == id && Truthy(w.snapshot)
  }

  /** Writes that do not overwrite `id` leave its row, or its absence, as it was. */
  lemma {:induction false} ReplayKeepsOthers(rows: Table, writes: seq<Write>, id: string)
    requires forall i :: 0 <= i < |writes| ==> !Overwrites(writes[i], id)
    ensures id in Replay(rows, writes) <==> id in rows
    ensures id in rows ==> Replay(rows, writes)[id] == rows[id]
    decreases |writes|
  {
    if writes != [] {
      var w := writes[0];
      assert !Overwrites(writes[0], id);
      ReplayKeepsOthers(Store(rows, NoFile, w.id, w.snapshot, w.now, w.write).rows, writes[1..], id);
    }
  }

  /** GET after an accepted POST of (id, s) returns s, however the file write
      went and however many writes to other ids (or rejected writes to id)
      come in between. */
  lemma GetAfterPut(rows: Table, file: FileImage, id: string, s: JsonValue, now: int, write: WriteOutcome, later: seq<Write>)
    requires Truthy(s)
    requires forall i :: 0 <= i < |later| ==> !Overwrites(later[i], id)
    ensures Fetch(Replay(Store(rows, file, id, s, now, write).rows, later), id) == Response(200, Document(s))
  {
    ReplayKeepsOthers(Store(rows, file, id, s, now, write).rows, later, id);
  }

  /** GET on an id that no write ever stored returns 404. */
  lemma GetNeverWritten(writes: seq<Write>, id: string)
    requires forall i :: 0 <= i < |writes| ==> !Overwrites(writes[i], id)
    ensures Fetch(Replay(map[], writes), id) == NotFound
  {
    ReplayKeepsOthers(map[], writes, id);
  }

  /** Every stored id exactly once with its `updated_at`, latest first;
      rows with equal timestamps may come in any order. */
  ghost predicate IsListing(rows: Table, docs: seq<Entry>) {
    && (forall i :: 0 <= i < |docs| ==> docs[i].id in rows && rows[docs[i].id].updatedAt == docs[i].updatedAt)
    && (forall id :: id in rows ==> exists i :: 0 <= i < |docs| && docs[i].id == id)
    && (forall i, j :: 0 <= i < j < |docs| ==> docs[i].id != docs[j].id)
    && (forall i, j :: 0 <= i < j < |docs| ==> docs[i].updatedAt >= docs[j].updatedAt)
  }

  /** `k` is a row with the latest timestamp in `rows`. */
  predicate IsLatest(rows: Table, k: string) {
    k in rows && forall j :: j in rows ==> rows[j].updatedAt <= rows[k].updatedAt
  }

  /** A non-empty table has a row with the latest timestamp. */
  lemma {:induction false} LatestExists(rows: Table)
    requires rows != map[]
    ensures exists k :: IsLatest(rows, k)
    decreases |rows|
  {
    var k :| k in rows;
    if !IsLatest(rows, k) {
      var j :| j in rows && rows[j].updatedAt > rows[k].updatedAt;
      var rest := rows - {k};
      assert rest.Keys == rows.Keys - {k};
      assert j in rest;
      LatestExists(rest);
      var m :| IsLatest(rest, m);
      forall i | i in rows ensures rows[i].updatedAt <= rows[m].updatedAt {
        if i != k { assert i in rest; }
      }
      assert IsLatest(rows, m);
    }
  }

  /** Partway through the list loop: `docs` lists the rows already stepped
      over, latest first, and none of them is later than a row still in `rest`. */
  ghost predicate PartialListing(rows: Table, rest: Table, docs: seq<Entry>) {
    && (forall k :: k in rest ==> k in rows && rest[k] == rows[k])
    && (forall i :: 0 <= i < |docs| ==>
          docs[i].id in rows && docs[i].id !in rest && rows[docs[i].id].updatedAt == docs[i].updatedAt)
    && (forall id :: id in rows && id !in rest ==> exists i :: 0 <= i < |docs| && docs[i].id == id)
    && (forall i, j :: 0 <= i < j < |docs| ==> docs[i].id != docs[j].id)
    && (forall i, j :: 0 <= i < j < |docs| ==> docs[i].updatedAt >= docs[j].updatedAt)
    && (forall i, k :: 0 <= i < |docs| && k in rest ==> docs[i].updatedAt >= rest[k].updatedAt)
  }

  /** The new entry keeps every stored id listed that has left `rest`. */
  lemma ListingStepCovers(rows: Table, rest: Table, docs: seq<Entry>, k: string)
    requires PartialListing(rows, rest, docs)
    requires k in rest
    ensures var docs' := docs + [Entry(k, rest[k].updatedAt)];
      forall id :: id in rows && id !in rest - {k} ==> exists i :: 0 <= i < |docs'| && docs'[i].id == id
  {
    var docs' := docs + [Entry(k, rest[k].updatedAt)];
    forall id | id in rows && id !in rest - {k}
      ensures exists i :: 0 <= i < |docs'| && docs'[i].id == id
    {
      if id == k {
        assert docs'[|docs|].id == id;
      } else {
        var i :| 0 <= i < |docs| && docs[i].id == id;
        assert docs'[i].id == id;
      }
    }
  }

  /** The new entry is new and no later than the entries before it. */
  lemma ListingStepOrder(rows: Table, rest: Table, docs: seq<Entry>, k: string)
    requires PartialListing(rows, rest, docs)
    requires k in rest
    ensures var docs' := docs + [Entry(k, rest[k].updatedAt)];
      forall i, j :: 0 <= i < j < |docs'| ==> docs'[i].id != docs'[j].id && docs'[i].updatedAt >= docs'[j].updatedAt
  {
    var docs' := docs + [Entry(k, rest[k].updatedAt)];
    forall i, j | 0 <= i < j < |docs'|
      ensures docs'[i].id != docs'[j].id && docs'[i].updatedAt >= docs'[j].updatedAt
    {
      if j == |docs| {
        assert docs'[i] == docs[i];
      }
    }
  }

  /** Taking a latest remaining row keeps the partial listing. */
  lemma ListingStep(rows: Table, rest: Table, docs: seq<Entry>, k: string)
    requires PartialListing(rows, rest, docs)
    requires IsLatest(rest, k)
    ensures PartialListing(rows, rest - {k}, docs + [Entry(k, rest[k].updatedAt)])
  {
    ListingStepCovers(rows, rest, docs, k);
    ListingStepOrder(rows, rest, docs, k);
    var docs' := docs + [Entry(k, rest[k].updatedAt)];
    assert forall i :: 0 <= i < |docs| ==> docs'[i] == docs[i];
  }

  /** A listing of two rows with different timestamps is determined. */
  lemma ListingOfTwo(rows: Table, a: string, b: string, docs: seq<Entry>)
    requires a in rows && b in rows && a != b
    requires forall k :: k in rows ==> k == a || k == b
    requires rows[a].updatedAt > rows[b].updatedAt
    requires IsListing(rows, docs)
    ensures docs == [Entry(a, rows[a].updatedAt), Entry(b, rows[b].updatedAt)]
  {
    var i :| 0 <= i < |docs| && docs[i].id == a;
    var j :| 0 <= j < |docs| && docs[j].id == b;
    assert i < j by {
      assert docs[i].updatedAt > docs[j].updatedAt;
    }
    forall k | 0 <= k < |docs| ensures docs[k].id == a || docs[k].id == b {
      assert docs[k].id in rows;
    }
    assert i == 0;
    assert docs[0].id != docs[1].id;
    assert j == 1;
    assert |docs| == 2;
  }

  /** Saves A, B, A leave exactly A and B stored: A with its second snapshot
      and B with its own, each with its own save time, whatever became of
      each file write. */
  lemma RewriteTable(a: string, b: string, sa: JsonValue, sb: JsonValue, sa': JsonValue,
                     t1: int, t2: int, t3: int, w1: WriteOutcome, w2: WriteOutcome, w3: WriteOutcome)
    requires a != b && Truthy(sa) && Truthy(sb) && Truthy(sa')
    ensures var rows := Replay(map[], [Write(a, sa, t1, w1), Write(b, sb, t2, w2), Write(a, sa', t3, w3)]);
      && a in rows && b in rows
      && (forall k :: k in rows ==> k == a || k == b)
      && rows[a] == Row(sa', t3)
      && rows[b] == Row(sb, t2)
  {
    var writes := [Write(a, sa, t1, w1), Write(b, sb, t2, w2), Write(a, sa', t3, w3)];
    var r1 := map[a := Row(sa, t1)];
    var r2 := r1[b := Row(sb, t2)];
    var r3 := r2[a := Row(sa', t3)];
    ReplayStored(map[], writes);
    ReplayStored(r1, writes[1..]);
    ReplayStored(r2, writes[2..]);
    assert writes[1..][1..] == writes[2..] && writes[2..][1..] == [];
    assert Replay(map[], writes) == r3;
  }

  /** After saves A, B, A, with B saved strictly before A's second save, the
      only listing is A before B, whatever became of each file write. The
      time of A's first save plays no part: that row is replaced. */
  lemma ListingAfterRewrite(a: string, b: string, sa: JsonValue, sb: JsonValue, sa': JsonValue,
                            t1: int, t2: int, t3: int, w1: WriteOutcome, w2: WriteOutcome, w3: WriteOutcome,
                            docs: seq<Entry>)
    requires a != b && Truthy(sa) && Truthy(sb) && Truthy(sa')
    requires t2 < t3
    requires IsListing(Replay(map[], [Write(a, sa, t1, w1), Write(b, sb, t2, w2), Write(a, sa', t3, w3)]), docs)
    ensures docs == [Entry(a, t3), Entry(b, t2)]
  {
    RewriteTable(a, b, sa, sb, sa', t1, t2, t3, w1, w2, w3);
    ListingOfTwo(Replay(map[], [Write(a, sa, t1, w1), Write(b, sb, t2, w2), Write(a, sa', t3, w3)]), a, b, docs);
  }

  /** When A's second save is not strictly later than B's, B before A is a
      listing too, so A before B is no longer the only one. */
  lemma RewriteListingOpen(a: string, b: string, sa: JsonValue, sb: JsonValue, sa': JsonValue,
                           t1: int, t2: int, t3: int, w1: WriteOutcome, w2: WriteOutcome, w3: WriteOutcome)
    requires a != b && Truthy(sa) && Truthy(sb) && Truthy(sa')
    requires t3 <= t2
    ensures IsListing(Replay(map[], [Write(a, sa, t1, w1), Write(b, sb, t2, w2), Write(a, sa', t3, w3)]),
                      [Entry(b, t2), Entry(a, t3)])
  {
    RewriteTable(a, b, sa, sb, sa', t1, t2, t3, w1, w2, w3);
    var docs := [Entry(b, t2), Entry(a, t3)];
    assert docs[0].id == b && docs[1].id == a;
  }

  /** With equal timestamps the order is not determined: both orders are listings. */
  lemma ListingTiesUnordered(a: string, b: string, sa: JsonValue, sb: JsonValue, t: int)
    requires a != b
    ensures var rows := map[a := Row(sa, t), b := Row(sb, t)];
      IsListing(rows, [Entry(a, t), Entry(b, t)]) && IsListing(rows, [Entry(b, t), Entry(a, t)])
  {
    var rows := map[a := Row(sa, t), b := Row(sb, t)];
    var d1 := [Entry(a, t), Entry(b, t)];
    var d2 := [Entry(b, t), Entry(a, t)];
    assert forall id :: id in rows ==> d1[0].id == id || d1[1].id == id;
    assert forall id :: id in rows ==> d2[0].id == id || d2[1].id == id;
  }

  /** The server: the in-memory database and the database file. */
  class DocumentServer {
    var rows: Table
    var file: FileImage

    /** Start-up: load the file if it exists, else begin with an empty table. */
    constructor Open(image: Option<Table>)
      ensures rows == (if image.Some? then image.value else map[])
      ensures file == (if image.Some? then Image(image.value) else NoFile)
    {
      if image.Some? {
        rows := image.value;
        file := Image(image.value);
      } else {
        rows := map[];
        file := NoFile;
      }
    }

    /** GET /health. */
    method Health() returns (r: Response)
      ensures r == Response(200, HealthStatus("ok"))
    {
      r := Response(200, HealthStatus("ok"));
    }

    /** GET /api/document/:id. */
    method GetDocument(id: string) returns (r: Response)
      ensures r == Fetch(rows, id)
    {
      if id in rows {
        r := Response(200, Document(rows[id].snapshot));
      } else {
        r := NotFound;
      }
    }

    /** POST /api/document/:id. */
    method PostDocument(id: string, snapshot: JsonValue, now: int, write: WriteOutcome) returns (r: Response)
      modifies this
      ensures Saved(rows, file, r) == Store(old(rows), old(file), id, snapshot, now, write)
    {
      if !Truthy(snapshot) {
        return SnapshotRequired;
      }
      rows := rows[id := Row(snapshot, now)];
      match write {
        case Written =>
          file := Image(rows);
          r := Response(200, Success);
        case Unwritten =>
          r := SaveFailed;
        case Truncated =>
          file := Damaged;
          r := SaveFailed;
      }
    }

    /** GET /api/documents: step through the rows latest first and collect them. */
    method ListDocuments() returns (r: Response)
      ensures r.status == 200 && r.body.Documents? && IsListing(rows, r.body.documents)
    {
      var rest := rows;
      var docs: seq<Entry> := [];
      while rest != map[]
        invariant PartialListing(rows, rest, docs)
        decreases |rest|
      {
        LatestExists(rest);
        var k :| IsLatest(rest, k);
        ListingStep(rows, rest, docs, k);
        docs := docs + [Entry(k, rest[k].updatedAt)];
        rest := rest - {k};
      }
      r := Response(200, Documents(docs));
    }
  }
}
