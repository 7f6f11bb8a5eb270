/** The problem-statement log API: `POST /api/generate` validates a problem
    statement, composes a fixed summary around it and appends the record to a
    JSON-file store; `GET /api/records` lists the records newest first;
    `GET /api/records/{id}` looks one up by id, ignoring case. The file is
    modelled by its parsed content; `Guid.NewGuid()` and
    `DateTimeOffset.UtcNow` are parameters. */
module ProblemStatementLog {
  import opened Wrappers
  import opened Text

  datatype GenerateRequest = GenerateRequest(problemStatement: Option<string>)

  /** `GenerateRecord`; `createdUtc` is the instant as a tick count. */
  datatype GenerateRecord = GenerateRecord(id: string, createdUtc: int, problemStatement: string, responseText: string)

  datatype ErrorResponse = ErrorResponse(message: string)

  datatype ApiResult =
    | OkRecord(record: GenerateRecord)
    | OkRecords(records: seq<GenerateRecord>)
    | BadRequest(error: ErrorResponse)
    | NotFound(error: ErrorResponse)

  const MinLength: nat := 10
  const StatementRequired: string := "Problem statement is required."
  const StatementTooShort: string := "Please enter at least 10 characters."
  const RecordNotFound: string := "Record not found."

  /** The canned summary every accepted statement is appended to. */
  const SummaryBlock: string :=
    "Summary\n" +
    "- Problem: inconsistent sprint velocity and unclear acceptance criteria\n" +
    "- Impact: unpredictable planning and rework\n\n" +
    "Recommended actions\n" +
    "1) Add Definition of Ready\n" +
    "2) Standardize acceptance criteria\n" +
    "3) Run weekly backlog refinement\n\n" +
    "Input received:\n"

  // ---------------------------------------------------------------- validation

  /** The statement checks of `POST /api/generate`, in order: null, empty or
      all-whitespace is "required"; otherwise a trimmed text shorter than 10
      UTF-16 code units is "too short"; otherwise the trimmed text is accepted. */
  function Validate(problemStatement: Option<string>): (r: Result<string, ErrorResponse>)
    ensures IsNullOrWhiteSpace(problemStatement) ==> r == Failure(ErrorResponse(StatementRequired))
    ensures !IsNullOrWhiteSpace(problemStatement) ==>
      && (r.Failure? <==> Utf16Length(Trim(problemStatement.value)) < MinLength)
      && (r.Failure? ==> r.error == ErrorResponse(StatementTooShort))
    ensures r.Success? ==>
      && TrimmedFrom(r.value, problemStatement.value)
      && MinLength <= Utf16Length(r.value)
  {
    if IsNullOrWhiteSpace(problemStatement) then
      Failure(ErrorResponse(StatementRequired))
    else
      var text := Trim(problemStatement.value);
      if Utf16Length(text) < MinLength then Failure(ErrorResponse(StatementTooShort))
      else Success(text)
  }

  /** The whitespace check comes first: an all-whitespace statement is
      "required" however long it is, never "too short". */
  lemma WhiteSpaceCheckedFirst(s: string)
    requires AllWhiteSpace(s)
    ensures Validate(Some(s)) == Failure(ErrorResponse(StatementRequired))
  {
  }

  /** An accepted statement is accepted again unchanged: validation is
      idempotent on its own output. */
  lemma ValidateIdempotent(problemStatement: Option<string>)
    requires Validate(problemStatement).Success?
    ensures Validate(Some(Validate(problemStatement).value)) == Validate(problemStatement)
  {
    var text := Validate(problemStatement).value;
    TrimIdempotent(problemStatement.value);
    assert text == Trim(problemStatement.value);
    assert text != [];
  }

  /** The response text: the fixed summary with the trimmed statement appended. */
  function ResponseText(text: string): (r: string)
    ensures |r| == |SummaryBlock| + |text|
    ensures r[..|SummaryBlock|] == SummaryBlock && r[|SummaryBlock|..] == text
  {
    SummaryBlock + text
  }

  // ---------------------------------------------------------------- JsonStore

  /** What the store's file parses to: `null` or an array of records. */
  datatype StoredJson = JsonNull | JsonArray(records: seq<GenerateRecord>)

  datatype JsonStore = JsonStore(file: StoredJson)

  /** `JsonStore.ReadAllAsync`: a `null` document reads as the empty list. */
  function ReadAll(store: JsonStore): seq<GenerateRecord> {
    match store.file
    case JsonNull => []
    case JsonArray(records) => records
  }

  /** The `JsonStore` constructor: a missing file is created holding `[]`;
      an existing file is left as it is. */
  function OpenStore(existing: Option<StoredJson>): (store: JsonStore)
    ensures existing.None? ==> ReadAll(store) == []
    ensures existing.Some? ==> ReadAll(store) == ReadAll(JsonStore(existing.value))
  {
    match existing
    case None => JsonStore(JsonArray([]))
    case Some(content) => JsonStore(content)
  }

  /** `JsonStore.AppendAsync`: read everything, add the record at the end,
      write everything back. Earlier records keep their order. */
  function Append(store: JsonStore, record: GenerateRecord): (store': JsonStore)
    ensures ReadAll(store') == ReadAll(store) + [record]
  {
    JsonStore(JsonArray(ReadAll(store) + [record]))
  }

  function AppendAll(store: JsonStore, records: seq<GenerateRecord>): JsonStore
    decreases |records|
  {
    if records == [] then store
    else AppendAll(Append(store, records[0]), records[1..])
  }

  /** A store created fresh (or over a `null` document) and then appended to
      reads back exactly the appended records, in order. */
  lemma {:induction false} StoreReadsBackAppends(start: Option<StoredJson>, records: seq<GenerateRecord>)
    requires start.None? || start == Some(JsonNull)
    ensures ReadAll(AppendAll(OpenStore(start), records)) == records
  {
    AppendAllReads(OpenStore(start), records);
  }

  lemma {:induction false} AppendAllReads(store: JsonStore, records: seq<GenerateRecord>)
    ensures ReadAll(AppendAll(store, records)) == ReadAll(store) + records
    decreases |records|
  {
    if records != [] {
      AppendAllReads(Append(store, records[0]), records[1..]);
      assert ReadAll(store) + [records[0]] + records[1..] == ReadAll(store) + records;
    }
  }

  // ---------------------------------------------------------------- POST /api/generate

  datatype Posted = Posted(store: JsonStore, result: ApiResult)

  /** `POST /api/generate`. A rejected statement is answered 400 and leaves the
      store untouched. An accepted one becomes a record holding the trimmed
      statement and the summary ending in that statement; the record is
      appended to the store and returned. */
  function PostGenerate(store: JsonStore, request: GenerateRequest, newId: string, now: int): (p: Posted)
    ensures Validate(request.problemStatement).Failure? ==>
      p == Posted(store, BadRequest(Validate(request.problemStatement).error))
    ensures Validate(request.problemStatement).Success? ==>
      var text := Validate(request.problemStatement).value;
      && p.result.OkRecord?
      && p.result.record.id == newId
      && p.result.record.createdUtc == now
      && p.result.record.problemStatement == text
      && SummaryBlock <= p.result.record.responseText
      && p.result.record.responseText[|SummaryBlock|..] == text
      && ReadAll(p.store) == ReadAll(store) + [p.result.record]
  {
    match Validate(request.problemStatement)
    case Failure(e) => Posted(store, BadRequest(e))
    case Success(text) =>
      var record := GenerateRecord(newId, now, text, ResponseText(text));
      Posted(Append(store, record), OkRecord(record))
  }

  // ---------------------------------------------------------------- GET /api/records

  predicate SortedByCreatedDescending(records: seq<GenerateRecord>) {
    forall i, j :: 0 <= i < j < |records| ==> records[i].createdUtc >= records[j].createdUtc
  }

  /** The records created at instant `t`, in their order. */
  function CreatedAt(records: seq<GenerateRecord>, t: int): seq<GenerateRecord> {
    if records == [] then []
    else (if records[0].createdUtc == t then [records[0]] else []) + CreatedAt(records[1..], t)
  }

  /** Puts `r` in front of the first record not newer than it. */
  function Insert(r: GenerateRecord, records: seq<GenerateRecord>): seq<GenerateRecord> {
    if records == [] || records[0].createdUtc <= r.createdUtc then [r] + records
    else [records[0]] + Insert(r, records[1..])
  }

  /** `OrderByDescending(r => r.CreatedUtc)`, a stable sort, as an insertion sort. */
  function OrderByCreatedDescending(records: seq<GenerateRecord>): seq<GenerateRecord> {
    if records == [] then []
    else Insert(records[0], OrderByCreatedDescending(records[1..]))
  }

  lemma {:induction false} InsertPermutes(r: GenerateRecord, records: seq<GenerateRecord>)
    ensures multiset(Insert(r, records)) == multiset(records) + multiset{r}
    ensures |Insert(r, records)| == |records| + 1
    ensures records != [] ==> Insert(r, records)[0] == r || Insert(r, records)[0] == records[0]
  {
    if records != [] && records[0].createdUtc > r.createdUtc {
      InsertPermutes(r, records[1..]);
      assert records == [records[0]] + records[1..];
    }
  }

  lemma {:induction false} InsertSorted(r: GenerateRecord, records: seq<GenerateRecord>)
    requires SortedByCreatedDescending(records)
    ensures SortedByCreatedDescending(Insert(r, records))
  {
    InsertPermutes(r, records);
    if records != [] && records[0].createdUtc > r.createdUtc {
      InsertSorted(r, records[1..]);
      var rest := Insert(r, records[1..]);
      InsertPermutes(r, records[1..]);
      var out := [records[0]] + rest;
      assert Insert(r, records) == out;
      if |records| > 1 {
        assert records[0].createdUtc >= records[1].createdUtc;
      }
      assert records[0].createdUtc >= rest[0].createdUtc;
      forall i, j | 0 <= i < j < |out|
        ensures out[i].createdUtc >= out[j].createdUtc
      {
        if i == 0 {
          assert out[j] == rest[j - 1];
          if j > 1 {
            assert rest[0].createdUtc >= rest[j - 1].createdUtc;
          }
        } else {
          assert out[i] == rest[i - 1] && out[j] == rest[j - 1];
        }
      }
    }
  }

  lemma CreatedAtCons(h: GenerateRecord, rest: seq<GenerateRecord>, t: int)
    ensures CreatedAt([h] + rest, t) == (if h.createdUtc == t then [h] else []) + CreatedAt(rest, t)
  {
    assert ([h] + rest)[0] == h;
    assert ([h] + rest)[1..] == rest;
  }

  lemma {:induction false} InsertKeepsTies(r: GenerateRecord, records: seq<GenerateRecord>, t: int)
    ensures CreatedAt(Insert(r, records), t)
         == (if r.createdUtc == t then [r] else []) + CreatedAt(records, t)
  {
    if records == [] || records[0].createdUtc <= r.createdUtc {
      CreatedAtCons(r, records, t);
    } else {
      var h := records[0];
      var rest := Insert(r, records[1..]);
      var hs := if h.createdUtc == t then [h] else [];
      var rs := if r.createdUtc == t then [r] else [];
      InsertKeepsTies(r, records[1..], t);
      CreatedAtCons(h, rest, t);
      CreatedAtCons(h, records[1..], t);
      assert records == [h] + records[1..];
      assert CreatedAt(Insert(r, records), t) == hs + (rs + CreatedAt(records[1..], t));
      assert CreatedAt(records, t) == hs + CreatedAt(records[1..], t);
      assert hs == [] || rs == [];
    }
  }

  lemma {:induction false} OrderSorted(records: seq<GenerateRecord>)
    ensures SortedByCreatedDescending(OrderByCreatedDescending(records))
  {
    if records != [] {
      OrderSorted(records[1..]);
      InsertSorted(records[0], OrderByCreatedDescending(records[1..]));
    }
  }

  lemma {:induction false} OrderPermutes(records: seq<GenerateRecord>)
    ensures multiset(OrderByCreatedDescending(records)) == multiset(records)
  {
    if records != [] {
      OrderPermutes(records[1..]);
      InsertPermutes(records[0], OrderByCreatedDescending(records[1..]));
      assert records == [records[0]] + records[1..];
    }
  }

  lemma {:induction false} OrderStable(records: seq<GenerateRecord>, t: int)
    ensures CreatedAt(OrderByCreatedDescending(records), t) == CreatedAt(records, t)
  {
    if records != [] {
      OrderStable(records[1..], t);
      InsertKeepsTies(records[0], OrderByCreatedDescending(records[1..]), t);
      CreatedAtCons(records[0], records[1..], t);
      assert records == [records[0]] + records[1..];
    }
  }

  /** The listing is a permutation of the stored records, sorted newest
      first, and stable: records created at the same instant keep their
      stored order. */
  lemma OrderByCreatedDescendingSpec(records: seq<GenerateRecord>)
    ensures var out := OrderByCreatedDescending(records);
      && SortedByCreatedDescending(out)
      && multiset(out) == multiset(records)
      && forall t :: CreatedAt(out, t) == CreatedAt(records, t)
  {
    OrderSorted(records);
    OrderPermutes(records);
    forall t
      ensures CreatedAt(OrderByCreatedDescending(records), t) == CreatedAt(records, t)
    {
      OrderStable(records, t);
    }
  }

  /** `GET /api/records`: every stored record, newest first, ties in stored
      order. */
  function GetRecords(store: JsonStore): (r: ApiResult)
    ensures r.OkRecords?
    ensures SortedByCreatedDescending(r.records)
    ensures multiset(r.records) == multiset(ReadAll(store))
    ensures forall t :: CreatedAt(r.records, t) == CreatedAt(ReadAll(store), t)
  {
    OrderByCreatedDescendingSpec(ReadAll(store));
    OkRecords(OrderByCreatedDescending(ReadAll(store)))
  }

  /** After a successful post, the listing holds the new record. */
  lemma ListingShowsNewRecord(store: JsonStore, request: GenerateRequest, newId: string, now: int)
    requires Validate(request.problemStatement).Success?
    ensures var p := PostGenerate(store, request, newId, now);
      p.result.record in GetRecords(p.store).records
  {
    var p := PostGenerate(store, request, newId, now);
    OrderByCreatedDescendingSpec(ReadAll(p.store));
    assert p.result.record in multiset(ReadAll(p.store));
  }

  // ---------------------------------------------------------------- GET /api/records/{id}

  /** `FirstOrDefault(r => r.Id.Equals(id, OrdinalIgnoreCase))`, as an index. */
  function FindById(records: seq<GenerateRecord>, id: string): (r: Option<nat>)
    ensures r.Some? ==> r.value < |records| && EqualsIgnoreCase(records[r.value].id, id)
    ensures r.Some? ==> forall k :: 0 <= k < r.value ==> !EqualsIgnoreCase(records[k].id, id)
    ensures r.None? ==> forall k :: 0 <= k < |records| ==> !EqualsIgnoreCase(records[k].id, id)
  {
    if records == [] then None
    else if EqualsIgnoreCase(records[0].id, id) then Some(0)
    else
      match FindById(records[1..], id)
      case None => None
      case Some(k) => Some(k + 1)
  }

  /** `GET /api/records/{id}`: the first stored record whose id equals `id`
      ignoring case, or 404 "Record not found." when none does. */
  function GetRecord(store: JsonStore, id: string): (r: ApiResult)
    ensures r.OkRecord? || r.NotFound?
    ensures r.NotFound? <==> forall k :: 0 <= k < |ReadAll(store)| ==> !EqualsIgnoreCase(ReadAll(store)[k].id, id)
    ensures r.NotFound? ==> r.error == ErrorResponse(RecordNotFound)
    ensures r.OkRecord? ==> exists k ::
      && 0 <= k < |ReadAll(store)|
      && ReadAll(store)[k] == r.record
      && EqualsIgnoreCase(r.record.id, id)
      && forall m :: 0 <= m < k ==> !EqualsIgnoreCase(ReadAll(store)[m].id, id)
  {
    match FindById(ReadAll(store), id)
    case None => NotFound(ErrorResponse(RecordNotFound))
    case Some(k) => OkRecord(ReadAll(store)[k])
  }

  /** Two ids that differ only in letter case find the same record. */
  lemma GetRecordIgnoresCase(store: JsonStore, id1: string, id2: string)
    requires EqualsIgnoreCase(id1, id2)
    ensures GetRecord(store, id1) == GetRecord(store, id2)
  {
    var rs := ReadAll(store);
    forall k | 0 <= k < |rs|
      ensures EqualsIgnoreCase(rs[k].id, id1) <==> EqualsIgnoreCase(rs[k].id, id2)
    {
    }
    FindSameIndex(rs, id1, id2);
  }

  lemma {:induction false} FindSameIndex(records: seq<GenerateRecord>, id1: string, id2: string)
    requires forall k :: 0 <= k < |records| ==> (EqualsIgnoreCase(records[k].id, id1) <==> EqualsIgnoreCase(records[k].id, id2))
    ensures FindById(records, id1) == FindById(records, id2)
  {
    if records != [] {
      FindSameIndex(records[1..], id1, id2);
    }
  }

  /** A record just posted under a fresh id is what a lookup of that id
      returns (in any letter case). */
  lemma PostThenGet(store: JsonStore, request: GenerateRequest, newId: string, now: int, lookup: string)
    requires Validate(request.problemStatement).Success?
    requires forall k :: 0 <= k < |ReadAll(store)| ==> !EqualsIgnoreCase(ReadAll(store)[k].id, newId)
    requires EqualsIgnoreCase(newId, lookup)
    ensures var p := PostGenerate(store, request, newId, now);
      GetRecord(p.store, lookup) == p.result
  {
    var p := PostGenerate(store, request, newId, now);
    var rs := ReadAll(p.store);
    var n := |ReadAll(store)|;
    assert rs[n] == p.result.record;
    forall k | 0 <= k < n
      ensures !EqualsIgnoreCase(rs[k].id, lookup)
    {
      assert rs[k] == ReadAll(store)[k];
      if EqualsIgnoreCase(rs[k].id, lookup) {
        assert EqualsIgnoreCase(rs[k].id, newId);
      }
    }
    assert EqualsIgnoreCase(rs[n].id, lookup);
  }
}
