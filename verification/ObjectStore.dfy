/** The object table and its per-calendar change journal
    (internal/storage/objects.go, internal/storage/calendars.go). A transaction is
    a run of statements, any of which may fail; failure rolls everything back. */
module ObjectStore {
  import opened Components
  import opened Instants
  import opened OccurrenceIndex

  type Blob = string

  /** Decoding and hashing of stored bodies, with the time library parsing uses. */
  datatype Codec = Codec(decode: Blob -> Option<Component>, digest: Blob -> string, k: Calendrics, e: RuleEngine)

  datatype Row = Row(
    calendarId: int, uid: string, href: string, etag: string, blob: Blob, size: nat,
    componentType: string, first: Option<int>, last: Option<int>, hasRrule: bool, hasScheduling: bool,
    createdAt: int, modifiedAt: int)

  datatype Calendar = Calendar(syncSeq: nat, ctag: string)

  datatype Op = Added | Modified | Deleted

  datatype Change = Change(calendarId: int, seqNo: nat, op: Op, href: string, etag: string)

  datatype Db = Db(rows: map<int, Row>, calendars: map<int, Calendar>, journal: seq<Change>)

  /** The statements of a transaction, as points where it can fail. */
  datatype Statement = Begin | FindUid | FindHref | WriteRow | BumpSeq | SetCtag | AppendChange | Commit

  datatype StoreError = Malformed | UidConflict | ComponentSwap | NotFound | Storage

  function Decimal(n: nat): string {
    if n < 10 then [('0' as int + n) as char] else Decimal(n / 10) + [('0' as int + n % 10) as char]
  }

  /** ical.Parse on the bytes. */
  function ParseBlob(codec: Codec, blob: Blob): Option<Parsed> {
    match codec.decode(blob)
    case None => None
    case Some(cal) =>
      match ParseCalendar(codec.k, codec.e, cal)
      case Ok(p) => Some(p)
      case Err(_) => None
  }

  predicate At(r: Row, calendarId: int, href: string) {
    r.calendarId == calendarId && r.href == href
  }

  predicate TakesUid(rows: map<int, Row>, calendarId: int, uid: string, href: string) {
    exists id :: id in rows && rows[id].calendarId == calendarId && rows[id].uid == uid && rows[id].href != href
  }

  predicate Present(rows: map<int, Row>, calendarId: int, href: string) {
    exists id :: id in rows && At(rows[id], calendarId, href)
  }

  ghost function IdAt(rows: map<int, Row>, calendarId: int, href: string): (id: int)
    requires Present(rows, calendarId, href)
    ensures id in rows && At(rows[id], calendarId, href)
  {
    var id :| id in rows && At(rows[id], calendarId, href); id
  }

  function RowOf(codec: Codec, p: Parsed, calendarId: int, href: string, blob: Blob, createdAt: int, modifiedAt: int): Row {
    Row(calendarId, p.uid, href, codec.digest(blob), blob, |blob|, p.componentType, p.first, p.last,
        p.hasRrule, p.hasScheduling, createdAt, modifiedAt)
  }

  /** One PUT request with its environment: the clock, the row id an insert would
      be given and the statements that would fail. */
  datatype PutRequest = PutRequest(
    calendarId: int, href: string, blob: Blob, now: int, newId: int, faults: set<Statement>)

  datatype DeleteRequest = DeleteRequest(calendarId: int, href: string, faults: set<Statement>)

  // ----- Specification of one transaction -----

  /** A failure after the row was written. */
  predicate LaterFault(faults: set<Statement>) {
    BumpSeq in faults || SetCtag in faults || AppendChange in faults || Commit in faults
  }

  ghost function PutError(db: Db, codec: Codec, q: PutRequest): Option<StoreError> {
    match ParseBlob(codec, q.blob)
    case None => Some(Malformed)
    case Some(p) =>
      if Begin in q.faults || FindUid in q.faults then Some(Storage)
      else if TakesUid(db.rows, q.calendarId, p.uid, q.href) then Some(UidConflict)
      else if FindHref in q.faults then Some(Storage)
      else if Present(db.rows, q.calendarId, q.href) &&
              db.rows[IdAt(db.rows, q.calendarId, q.href)].componentType != p.componentType then Some(ComponentSwap)
      else if (!Present(db.rows, q.calendarId, q.href) && q.newId in db.rows) || q.calendarId !in db.calendars ||
              WriteRow in q.faults || LaterFault(q.faults) then Some(Storage)
      else None
  }

  function Bumped(calendars: map<int, Calendar>, calendarId: int): map<int, Calendar>
    requires calendarId in calendars
  {
    var next := calendars[calendarId].syncSeq + 1;
    calendars[calendarId := Calendar(next, Decimal(next))]
  }

  /** The database after a PUT: unchanged on any error. */
  ghost function PutState(db: Db, codec: Codec, q: PutRequest): Db {
    if PutError(db, codec, q).Some? then db
    else
      var p := ParseBlob(codec, q.blob).value;
      var exists' := Present(db.rows, q.calendarId, q.href);
      var id := if exists' then IdAt(db.rows, q.calendarId, q.href) else q.newId;
      var createdAt := if exists' then db.rows[id].createdAt else q.now;
      var calendars := Bumped(db.calendars, q.calendarId);
      Db(db.rows[id := RowOf(codec, p, q.calendarId, q.href, q.blob, createdAt, q.now)],
         calendars,
         db.journal + [Change(q.calendarId, calendars[q.calendarId].syncSeq, if exists' then Modified else Added,
                              q.href, codec.digest(q.blob))])
  }

  ghost function DeleteError(db: Db, q: DeleteRequest): Option<StoreError> {
    if Begin in q.faults || WriteRow in q.faults then Some(Storage)
    else if !Present(db.rows, q.calendarId, q.href) then Some(NotFound)
    else if q.calendarId !in db.calendars || LaterFault(q.faults) then Some(Storage)
    else None
  }

  ghost function DeleteState(db: Db, q: DeleteRequest): Db {
    if DeleteError(db, q).Some? then db
    else
      var calendars := Bumped(db.calendars, q.calendarId);
      Db(map id | id in db.rows && !At(db.rows[id], q.calendarId, q.href) :: db.rows[id],
         calendars,
         db.journal + [Change(q.calendarId, calendars[q.calendarId].syncSeq, Deleted, q.href, "")])
  }

  /** Another row of the calendar has the body's UID. */
  ghost predicate UidElsewhere(db: Db, codec: Codec, q: PutRequest, p: Parsed) {
    exists id :: id in db.rows && db.rows[id].calendarId == q.calendarId && db.rows[id].uid == p.uid && db.rows[id].href != q.href
  }

  ghost predicate OtherTypeHere(db: Db, q: PutRequest, p: Parsed) {
    exists id :: id in db.rows && At(db.rows[id], q.calendarId, q.href) && db.rows[id].componentType != p.componentType
  }

  ghost predicate RoomFor(db: Db, q: PutRequest) {
    q.newId in db.rows ==> exists id :: id in db.rows && At(db.rows[id], q.calendarId, q.href)
  }

  /** The verdict on a PUT. Without failing statements it is decided by the body and
      the table alone; with any, the PUT is never accepted. */
  lemma {:induction false} PutVerdict(db: Db, codec: Codec, q: PutRequest)
    requires UniqueKeys(db.rows)
    ensures PutError(db, codec, q) == Some(Malformed) <==> ParseBlob(codec, q.blob).None?
    ensures q.faults == {} && ParseBlob(codec, q.blob).Some? ==>
      var p := ParseBlob(codec, q.blob).value;
      PutError(db, codec, q) ==
        (if UidElsewhere(db, codec, q, p) then Some(UidConflict)
         else if OtherTypeHere(db, q, p) then Some(ComponentSwap)
         else if RoomFor(db, q) && q.calendarId in db.calendars then None else Some(Storage))
    ensures q.faults != {} ==> PutError(db, codec, q) != None
  {
    if Present(db.rows, q.calendarId, q.href) {
      forall id | id in db.rows && At(db.rows[id], q.calendarId, q.href) ensures id == IdAt(db.rows, q.calendarId, q.href) {
        IdAtUnique(db.rows, q.calendarId, q.href, id);
      }
    }
    if s :| s in q.faults {
      match s
      case Begin =>
      case FindUid =>
      case FindHref =>
      case WriteRow =>
      case BumpSeq =>
      case SetCtag =>
      case AppendChange =>
      case Commit =>
    }
  }

  /** The verdict on a DELETE, whose transaction looks nothing up by UID or href. */
  lemma {:induction false} DeleteVerdict(db: Db, q: DeleteRequest)
    ensures q.faults <= {FindUid, FindHref} ==>
      DeleteError(db, q) ==
        (if forall id :: id in db.rows ==> !At(db.rows[id], q.calendarId, q.href) then Some(NotFound)
         else if q.calendarId in db.calendars then None else Some(Storage))
    ensures !(q.faults <= {FindUid, FindHref}) ==> DeleteError(db, q) != None
  {
    if !(q.faults <= {FindUid, FindHref}) {
      var s :| s in q.faults && s != FindUid && s != FindHref;
      match s
      case Begin =>
      case WriteRow =>
      case BumpSeq =>
      case SetCtag =>
      case AppendChange =>
      case Commit =>
    }
  }

  /** The number that a string of digits stands for. */
  function ReadDecimal(s: string): int
    decreases |s|
  {
    if s == "" then 0 else 10 * ReadDecimal(s[..|s| - 1]) + (s[|s| - 1] as int - '0' as int)
  }

  /** A ctag reads back as the sequence number. */
  lemma {:induction false} DecimalReads(n: nat)
    ensures Decimal(n) != "" && ReadDecimal(Decimal(n)) == n
  {
    if n < 10 {
      assert Decimal(n)[..0] == "";
      assert ReadDecimal("") == 0;
    } else {
      DecimalReads(n / 10);
      var front := Decimal(n / 10);
      assert Decimal(n)[..|front|] == front;
    }
  }

  /** What a successful request adds to the journal: one entry with the next number of
      its calendar, the operation, the href and the etag of the new body, if any. */
  lemma {:induction false} PutJournals(db: Db, codec: Codec, q: PutRequest)
    requires PutError(db, codec, q).None?
    ensures var here := Present(db.rows, q.calendarId, q.href);
      q.calendarId in db.calendars && PutState(db, codec, q).journal == db.journal +
        [Change(q.calendarId, db.calendars[q.calendarId].syncSeq + 1, if here then Modified else Added, q.href, codec.digest(q.blob))]
  {}

  lemma {:induction false} DeleteJournals(db: Db, q: DeleteRequest)
    requires DeleteError(db, q).None?
    ensures q.calendarId in db.calendars && DeleteState(db, q).journal == db.journal +
        [Change(q.calendarId, db.calendars[q.calendarId].syncSeq + 1, Deleted, q.href, "")]
  {}

  // ----- Invariant -----

  /** Hrefs and UIDs are each unique within a calendar. */
  ghost predicate UniqueKeys(rows: map<int, Row>) {
    forall i, j :: i in rows && j in rows && i != j && rows[i].calendarId == rows[j].calendarId ==>
      rows[i].href != rows[j].href && rows[i].uid != rows[j].uid
  }

  /** Column by column, what a row says of its body. */
  predicate Describes(r: Row, codec: Codec) {
    match ParseBlob(codec, r.blob)
    case None => false
    case Some(p) =>
      && r.uid == p.uid && r.componentType == p.componentType
      && r.first == p.first && r.last == p.last
      && r.hasRrule == p.hasRrule && r.hasScheduling == p.hasScheduling
      && r.etag == codec.digest(r.blob) && r.size == |r.blob|
  }

  /** Stored columns are those of the stored body. */
  ghost predicate Denormalised(rows: map<int, Row>, codec: Codec) {
    forall id :: id in rows ==> Describes(rows[id], codec)
  }

  /** The journal entries of one calendar, oldest first. */
  function Entries(journal: seq<Change>, calendarId: int): seq<Change>
    decreases |journal|
  {
    if journal == [] then []
    else
      var n := |journal| - 1;
      Entries(journal[..n], calendarId) + if journal[n].calendarId == calendarId then [journal[n]] else []
  }

  /** What a client does with a list of changes. */
  function Replay(changes: seq<Change>, held: map<string, string>): map<string, string>
    decreases |changes|
  {
    if changes == [] then held
    else
      var n := |changes| - 1;
      var before := Replay(changes[..n], held);
      if changes[n].op.Deleted? then before - {changes[n].href} else before[changes[n].href := changes[n].etag]
  }

  /** m is the map from hrefs to etags of a calendar's objects. */
  ghost predicate Holds(rows: map<int, Row>, calendarId: int, m: map<string, string>) {
    && (forall id :: id in rows && rows[id].calendarId == calendarId ==>
          rows[id].href in m && m[rows[id].href] == rows[id].etag)
    && (forall href :: href in m ==> Present(rows, calendarId, href))
  }

  ghost predicate Numbered(entries: seq<Change>) {
    forall i :: 0 <= i < |entries| ==> entries[i].seqNo == i + 1
  }

  /** The letters an href has in a list of entries. */
  function Letters(entries: seq<Change>, href: string): seq<Op>
    decreases |entries|
  {
    if entries == [] then []
    else
      var n := |entries| - 1;
      Letters(entries[..n], href) + if entries[n].href == href then [entries[n].op] else []
  }

  function NextLife(alive: Option<bool>, op: Op): Option<bool> {
    match (alive, op)
    case (Some(false), Added) => Some(true)
    case (Some(true), Modified) => Some(true)
    case (Some(true), Deleted) => Some(false)
    case _ => None
  }

  /** Whether a word of operations is possible, and what it leaves behind. */
  function Life(word: seq<Op>): Option<bool>
    decreases |word|
  {
    if word == [] then Some(false) else NextLife(Life(word[..|word| - 1]), word[|word| - 1])
  }

  ghost predicate JournalOf(db: Db, calendarId: int) {
    var entries := Entries(db.journal, calendarId);
    && |entries| == (if calendarId in db.calendars then db.calendars[calendarId].syncSeq else 0)
    && Numbered(entries)
    && Holds(db.rows, calendarId, Replay(entries, map[]))
    && (forall href :: Life(Letters(entries, href)) == Some(Present(db.rows, calendarId, href)))
    && (calendarId in db.calendars ==> db.calendars[calendarId].ctag == Decimal(db.calendars[calendarId].syncSeq))
  }

  ghost predicate Inv(db: Db, codec: Codec) {
    && UniqueKeys(db.rows)
    && Denormalised(db.rows, codec)
    && (forall calendarId :: JournalOf(db, calendarId))
  }

  // ----- Every transaction keeps the invariant -----

  lemma {:induction false} EntriesSnoc(journal: seq<Change>, c: Change, calendarId: int)
    ensures Entries(journal + [c], calendarId) ==
      if c.calendarId == calendarId then Entries(journal, calendarId) + [c] else Entries(journal, calendarId)
  {
    assert (journal + [c])[..|journal|] == journal;
  }

  lemma {:induction false} ReplaySnoc(changes: seq<Change>, c: Change, held: map<string, string>)
    ensures Replay(changes + [c], held) ==
      if c.op.Deleted? then Replay(changes, held) - {c.href} else Replay(changes, held)[c.href := c.etag]
  {
    assert (changes + [c])[..|changes|] == changes;
  }

  lemma {:induction false} LifeSnoc(entries: seq<Change>, c: Change, href: string)
    ensures c.href != href ==> Letters(entries + [c], href) == Letters(entries, href)
    ensures c.href == href ==> Life(Letters(entries + [c], href)) == NextLife(Life(Letters(entries, href)), c.op)
  {
    assert (entries + [c])[..|entries|] == entries;
    if c.href == href {
      var w := Letters(entries, href);
      assert (w + [c.op])[..|w|] == w;
    }
  }

  lemma {:induction false} IdAtUnique(rows: map<int, Row>, calendarId: int, href: string, id: int)
    requires UniqueKeys(rows) && id in rows && At(rows[id], calendarId, href)
    ensures Present(rows, calendarId, href) && IdAt(rows, calendarId, href) == id
  {}

  /** A PUT that succeeds writes one row, at the same href as any row it replaces. */
  lemma {:induction false} PutWrites(db: Db, codec: Codec, q: PutRequest) returns (id: int)
    requires PutError(db, codec, q).None?
    ensures var rows := PutState(db, codec, q).rows;
      && id in rows && rows == db.rows[id := rows[id]] && At(rows[id], q.calendarId, q.href) && rows[id].blob == q.blob
      && Describes(rows[id], codec) && rows[id].modifiedAt == q.now
      && (id in db.rows ==> At(db.rows[id], q.calendarId, q.href) && rows[id].createdAt == db.rows[id].createdAt)
      && (id !in db.rows ==> id == q.newId && rows[id].createdAt == q.now)
  {
    id := if Present(db.rows, q.calendarId, q.href) then IdAt(db.rows, q.calendarId, q.href) else q.newId;
  }

  lemma {:induction false} PutKeepsKeys(db: Db, codec: Codec, q: PutRequest)
    requires UniqueKeys(db.rows) && PutError(db, codec, q).None?
    ensures UniqueKeys(PutState(db, codec, q).rows)
  {
    var rows := PutState(db, codec, q).rows;
    var p := ParseBlob(codec, q.blob).value;
    var id := if Present(db.rows, q.calendarId, q.href) then IdAt(db.rows, q.calendarId, q.href) else q.newId;
    forall j | j in rows && j != id && rows[j].calendarId == q.calendarId
      ensures rows[j].href != q.href && rows[j].uid != p.uid
    {
      assert j in db.rows && rows[j] == db.rows[j];
      if At(db.rows[j], q.calendarId, q.href) { IdAtUnique(db.rows, q.calendarId, q.href, j); }
    }
  }

  /** How a PUT changes what is present and what a held map must say. */
  lemma {:induction false} PutRows(db: Db, codec: Codec, q: PutRequest, calendarId: int)
    requires UniqueKeys(db.rows) && PutError(db, codec, q).None?
    ensures var rows := PutState(db, codec, q).rows;
      && (forall href :: Present(rows, calendarId, href) <==>
            Present(db.rows, calendarId, href) || (calendarId == q.calendarId && href == q.href))
      && (forall m :: Holds(db.rows, calendarId, m) ==>
            Holds(rows, calendarId, if calendarId == q.calendarId then m[q.href := codec.digest(q.blob)] else m))
  {
    var rows := PutState(db, codec, q).rows;
    var id := PutWrites(db, codec, q);
    PutKeepsKeys(db, codec, q);
    forall href ensures Present(rows, calendarId, href) <==>
      Present(db.rows, calendarId, href) || (calendarId == q.calendarId && href == q.href)
    {
      RowAddedPresent(db.rows, id, rows[id], calendarId, href);
    }
    forall m | Holds(db.rows, calendarId, m)
      ensures Holds(rows, calendarId, if calendarId == q.calendarId then m[q.href := codec.digest(q.blob)] else m)
    {
      RowAddedHolds(db.rows, id, rows[id], calendarId, m);
    }
  }

  lemma {:induction false} RowAddedPresent(rows: map<int, Row>, id: int, r: Row, calendarId: int, href: string)
    requires id in rows ==> At(rows[id], r.calendarId, r.href)
    ensures Present(rows[id := r], calendarId, href) <==> Present(rows, calendarId, href) || At(r, calendarId, href)
  {
    if j :| j in rows && At(rows[j], calendarId, href) {
      assert At(rows[id := r][j], calendarId, href);
    }
    if At(r, calendarId, href) {
      assert At(rows[id := r][id], calendarId, href);
    }
  }

  lemma {:induction false} RowAddedHolds(rows: map<int, Row>, id: int, r: Row, calendarId: int, m: map<string, string>)
    requires Holds(rows, calendarId, m) && UniqueKeys(rows[id := r]) && (id in rows ==> At(rows[id], r.calendarId, r.href))
    ensures Holds(rows[id := r], calendarId, if r.calendarId == calendarId then m[r.href := r.etag] else m)
  {
    var next, now := rows[id := r], if r.calendarId == calendarId then m[r.href := r.etag] else m;
    forall href | href in now ensures Present(next, calendarId, href) {
      RowAddedPresent(rows, id, r, calendarId, href);
    }
    forall j | j in next && next[j].calendarId == calendarId
      ensures next[j].href in now && now[next[j].href] == next[j].etag
    {
      if j != id && r.calendarId == calendarId {
        assert id in next && next[id].href != next[j].href;
      }
    }
  }

  lemma {:induction false} DeleteRows(db: Db, q: DeleteRequest, calendarId: int)
    requires UniqueKeys(db.rows) && DeleteError(db, q).None?
    ensures var rows := DeleteState(db, q).rows;
      && (forall href :: Present(rows, calendarId, href) <==>
            Present(db.rows, calendarId, href) && !(calendarId == q.calendarId && href == q.href))
      && (forall m :: Holds(db.rows, calendarId, m) ==>
            Holds(rows, calendarId, if calendarId == q.calendarId then m - {q.href} else m))
  {
    var rows := DeleteState(db, q).rows;
    forall href ensures Present(rows, calendarId, href) <==>
      Present(db.rows, calendarId, href) && !(calendarId == q.calendarId && href == q.href)
    {
      if Present(db.rows, calendarId, href) && !(calendarId == q.calendarId && href == q.href) {
        var j :| j in db.rows && At(db.rows[j], calendarId, href);
        assert At(rows[j], calendarId, href);
      }
      if Present(rows, calendarId, href) {
        var j :| j in rows && At(rows[j], calendarId, href);
        assert At(db.rows[j], calendarId, href);
      }
    }
  }

  /** How one change alters what a calendar holds. */
  ghost predicate Applies(before: map<int, Row>, now: map<int, Row>, calendarId: int, c: Change) {
    && (forall href :: Present(now, calendarId, href) <==>
          if href == c.href then !c.op.Deleted? else Present(before, calendarId, href))
    && (c.op.Added? <==> !Present(before, calendarId, c.href))
    && (forall m :: Holds(before, calendarId, m) ==>
          Holds(now, calendarId, if c.op.Deleted? then m - {c.href} else m[c.href := c.etag]))
  }

  ghost predicate Untouched(before: map<int, Row>, now: map<int, Row>, calendarId: int) {
    && (forall href :: Present(now, calendarId, href) <==> Present(before, calendarId, href))
    && (forall m :: Holds(before, calendarId, m) ==> Holds(now, calendarId, m))
  }

  /** A journal grows by one numbered entry per successful transaction. */
  lemma {:induction false} AppendKeepsJournal(db: Db, next: Db, c: Change, calendarId: int)
    requires JournalOf(db, calendarId) && c.calendarId in db.calendars
    requires next.journal == db.journal + [c] && next.calendars == Bumped(db.calendars, c.calendarId)
    requires c.seqNo == next.calendars[c.calendarId].syncSeq
    requires c.calendarId != calendarId ==> Untouched(db.rows, next.rows, calendarId)
    requires c.calendarId == calendarId ==> Applies(db.rows, next.rows, calendarId, c)
    ensures JournalOf(next, calendarId)
  {
    EntriesSnoc(db.journal, c, calendarId);
    if c.calendarId == calendarId {
      OwnAppend(db.rows, next.rows, Entries(db.journal, calendarId), c, calendarId);
      NumberedSnoc(Entries(db.journal, calendarId), c);
    }
  }

  lemma {:induction false} NumberedSnoc(entries: seq<Change>, c: Change)
    requires Numbered(entries) && c.seqNo == |entries| + 1
    ensures Numbered(entries + [c])
  {}

  lemma {:induction false} OwnAppend(before: map<int, Row>, now: map<int, Row>, entries: seq<Change>, c: Change, calendarId: int)
    requires Applies(before, now, calendarId, c) && Holds(before, calendarId, Replay(entries, map[]))
    requires forall href :: Life(Letters(entries, href)) == Some(Present(before, calendarId, href))
    ensures Holds(now, calendarId, Replay(entries + [c], map[]))
    ensures forall href :: Life(Letters(entries + [c], href)) == Some(Present(now, calendarId, href))
  {
    ReplaySnoc(entries, c, map[]);
    forall href ensures Life(Letters(entries + [c], href)) == Some(Present(now, calendarId, href)) {
      LifeSnoc(entries, c, href);
    }
  }

  lemma {:induction false} PutKeepsInv(db: Db, codec: Codec, q: PutRequest)
    requires Inv(db, codec)
    ensures Inv(PutState(db, codec, q), codec)
  {
    var next := PutState(db, codec, q);
    if PutError(db, codec, q).None? {
      PutKeepsKeys(db, codec, q);
      forall calendarId ensures JournalOf(next, calendarId) {
        PutRows(db, codec, q, calendarId);
        AppendKeepsJournal(db, next, next.journal[|db.journal|], calendarId);
      }
    }
  }

  lemma {:induction false} DeleteKeepsInv(db: Db, codec: Codec, q: DeleteRequest)
    requires Inv(db, codec)
    ensures Inv(DeleteState(db, q), codec)
  {
    var next := DeleteState(db, q);
    if DeleteError(db, q).None? {
      forall calendarId ensures JournalOf(next, calendarId) {
        DeleteRows(db, q, calendarId);
        AppendKeepsJournal(db, next, next.journal[|db.journal|], calendarId);
      }
    }
  }

  // ----- Runs -----

  datatype Request = Put(put: PutRequest) | Delete(delete: DeleteRequest)

  ghost function Step(db: Db, codec: Codec, r: Request): Db {
    match r
    case Put(q) => PutState(db, codec, q)
    case Delete(q) => DeleteState(db, q)
  }

  ghost function Run(db: Db, codec: Codec, rs: seq<Request>): Db
    decreases |rs|
  {
    if rs == [] then db else Step(Run(db, codec, rs[..|rs| - 1]), codec, rs[|rs| - 1])
  }

  /** The store invariant holds after every run of requests, whichever fail. */
  lemma {:induction false} RunKeepsInv(db: Db, codec: Codec, rs: seq<Request>)
    requires Inv(db, codec)
    ensures Inv(Run(db, codec, rs), codec)
  {
    if rs != [] {
      var n := |rs| - 1;
      RunKeepsInv(db, codec, rs[..n]);
      match rs[n]
      case Put(q) => PutKeepsInv(Run(db, codec, rs[..n]), codec, q);
      case Delete(q) => DeleteKeepsInv(Run(db, codec, rs[..n]), codec, q);
    }
  }

  /** Empty calendars, before any request. */
  function Fresh(calendarIds: set<int>): Db {
    Db(map[], map id | id in calendarIds :: Calendar(0, "0"), [])
  }

  /** A new store satisfies the invariant. */
  lemma {:induction false} FreshStoreInv(codec: Codec, calendarIds: set<int>)
    ensures Inv(Fresh(calendarIds), codec)
  {
    forall calendarId ensures JournalOf(Fresh(calendarIds), calendarId) {
      assert Entries([], calendarId) == [] && Replay([], map[]) == map[] && Decimal(0) == "0";
    }
  }

  // ----- ChangesSince -----

  /** The journal query: entries of one calendar past a sequence number. */
  function ChangesAfter(journal: seq<Change>, calendarId: int, since: int): seq<Change>
    decreases |journal|
  {
    if journal == [] then []
    else
      var n := |journal| - 1;
      ChangesAfter(journal[..n], calendarId, since) +
      if journal[n].calendarId == calendarId && journal[n].seqNo > since then [journal[n]] else []
  }

  lemma {:induction false} ChangesAreSuffix(journal: seq<Change>, calendarId: int, since: nat)
    requires Numbered(Entries(journal, calendarId))
    ensures var entries := Entries(journal, calendarId);
      ChangesAfter(journal, calendarId, since) == if since <= |entries| then entries[since..] else []
  {
    if journal != [] {
      var n := |journal| - 1;
      var entries, before := Entries(journal, calendarId), Entries(journal[..n], calendarId);
      assert Numbered(before) by { forall i | 0 <= i < |before| ensures before[i].seqNo == i + 1 { assert entries[i] == before[i]; } }
      ChangesAreSuffix(journal[..n], calendarId, since);
      if journal[n].calendarId == calendarId {
        assert entries[|before|].seqNo == |before| + 1;
        if since <= |before| { assert entries[since..] == before[since..] + [journal[n]]; }
      }
    }
  }

  lemma {:induction false} ReplayConcat(a: seq<Change>, b: seq<Change>, held: map<string, string>)
    ensures Replay(a + b, held) == Replay(b, Replay(a, held))
  {
    if b == [] {
      assert a + b == a;
    } else {
      ReplayConcat(a, b[..|b| - 1], held);
      assert (a + b)[..|a + b| - 1] == a + b[..|b| - 1];
    }
  }

  lemma {:induction false} HeldMapUnique(rows: map<int, Row>, calendarId: int, a: map<string, string>, b: map<string, string>)
    requires Holds(rows, calendarId, a) && Holds(rows, calendarId, b)
    ensures a == b
  {
    forall href | href in a ensures href in b && a[href] == b[href] {
      var id :| id in rows && At(rows[id], calendarId, href);
    }
    forall href | href in b ensures href in a {
      var id :| id in rows && At(rows[id], calendarId, href);
    }
  }

  /** A run only appends to each calendar's journal. */
  lemma {:induction false} RunExtendsEntries(db: Db, codec: Codec, rs: seq<Request>, calendarId: int)
    ensures Entries(db.journal, calendarId) <= Entries(Run(db, codec, rs).journal, calendarId)
  {
    if rs != [] {
      var mid := Run(db, codec, rs[..|rs| - 1]);
      RunExtendsEntries(db, codec, rs[..|rs| - 1], calendarId);
      var next := Run(db, codec, rs);
      if next.journal != mid.journal {
        assert next.journal == mid.journal + [next.journal[|mid.journal|]];
        EntriesSnoc(mid.journal, next.journal[|mid.journal|], calendarId);
      }
    }
  }

  function SyncSeq(db: Db, calendarId: int): nat {
    if calendarId in db.calendars then db.calendars[calendarId].syncSeq else 0
  }

  lemma {:induction false} ReplayBetween(before: Db, now: Db, calendarId: int, held: map<string, string>)
    requires JournalOf(before, calendarId) && JournalOf(now, calendarId)
    requires Entries(before.journal, calendarId) <= Entries(now.journal, calendarId)
    requires Holds(before.rows, calendarId, held)
    ensures var changes := ChangesAfter(now.journal, calendarId, SyncSeq(before, calendarId));
      && Holds(now.rows, calendarId, Replay(changes, held))
      && changes == Entries(now.journal, calendarId)[|Entries(before.journal, calendarId)|..]
  {
    var past, all := Entries(before.journal, calendarId), Entries(now.journal, calendarId);
    ChangesAreSuffix(now.journal, calendarId, |past|);
    ReplayFrom(past, all);
    HeldMapUnique(before.rows, calendarId, held, Replay(past, map[]));
  }

  lemma {:induction false} ReplayFrom(past: seq<Change>, all: seq<Change>)
    requires past <= all
    ensures Replay(all, map[]) == Replay(all[|past|..], Replay(past, map[]))
  {
    assert all == past + all[|past|..];
    ReplayConcat(past, all[|past|..], map[]);
  }

  /** Journal replay: a client that held a calendar's href-to-etag map at some
      sequence number and applies the changes since then holds the current map;
      the changes are numbered consecutively up to the current number. */
  lemma {:induction false} JournalReplay(db: Db, codec: Codec, rs: seq<Request>, calendarId: int, held: map<string, string>)
    requires Inv(db, codec) && Holds(db.rows, calendarId, held)
    ensures var now := Run(db, codec, rs);
      var changes := ChangesAfter(now.journal, calendarId, SyncSeq(db, calendarId));
      && Holds(now.rows, calendarId, Replay(changes, held))
      && |changes| == SyncSeq(now, calendarId) - SyncSeq(db, calendarId)
      && forall i :: 0 <= i < |changes| ==> changes[i].seqNo == SyncSeq(db, calendarId) + 1 + i
  {
    var now := Run(db, codec, rs);
    RunKeepsInv(db, codec, rs);
    RunExtendsEntries(db, codec, rs, calendarId);
    assert JournalOf(db, calendarId) && JournalOf(now, calendarId);
    ReplayBetween(db, now, calendarId, held);
  }

  /** Every sequence number between two states of a run was current at some
      point of it, so the replay theorem covers every earlier token. */
  lemma {:induction false} EveryNumberWasCurrent(db: Db, codec: Codec, rs: seq<Request>, calendarId: int, s: nat)
    requires Inv(db, codec) && SyncSeq(db, calendarId) <= s <= SyncSeq(Run(db, codec, rs), calendarId)
    ensures exists n :: 0 <= n <= |rs| && SyncSeq(Run(db, codec, rs[..n]), calendarId) == s
  {
    var n := |rs|;
    assert rs[..n] == rs;
    if SyncSeq(Run(db, codec, rs), calendarId) != s {
      assert rs != [];
      var init := rs[..n - 1];
      assert SyncSeq(Run(db, codec, rs), calendarId) <= SyncSeq(Run(db, codec, init), calendarId) + 1;
      EveryNumberWasCurrent(db, codec, init, calendarId, s);
      var m :| 0 <= m <= |init| && SyncSeq(Run(db, codec, init[..m]), calendarId) == s;
      assert init[..m] == rs[..m];
    }
  }

  /** The changes past s turn the map held in one state into that of another. */
  ghost predicate LeadsTo(before: Db, now: Db, calendarId: int, s: int) {
    forall held :: Holds(before.rows, calendarId, held) ==>
      Holds(now.rows, calendarId, Replay(ChangesAfter(now.journal, calendarId, s), held))
  }

  /** After n requests of the run, s was the calendar's number. */
  ghost predicate IsCurrent(db: Db, codec: Codec, rs: seq<Request>, calendarId: int, n: nat, s: nat)
    requires n <= |rs|
  {
    SyncSeq(Run(db, codec, rs[..n]), calendarId) == s
  }

  lemma {:induction false} RunLeadsOn(before: Db, codec: Codec, rest: seq<Request>, now: Db, calendarId: int)
    requires Inv(before, codec) && now == Run(before, codec, rest)
    ensures LeadsTo(before, now, calendarId, SyncSeq(before, calendarId))
  {
    forall held | Holds(before.rows, calendarId, held)
      ensures Holds(now.rows, calendarId, Replay(ChangesAfter(now.journal, calendarId, SyncSeq(before, calendarId)), held))
    {
      JournalReplay(before, codec, rest, calendarId, held);
    }
  }

  /** Every token between a calendar's first and latest number was current at some
      moment of the run, and from the map of any such moment the changes since the
      token lead to the current map. */
  lemma {:induction false} ReplayFromAnyToken(db: Db, codec: Codec, rs: seq<Request>, calendarId: int, s: nat)
    requires Inv(db, codec) && SyncSeq(db, calendarId) <= s <= SyncSeq(Run(db, codec, rs), calendarId)
    ensures exists n :: 0 <= n <= |rs| && IsCurrent(db, codec, rs, calendarId, n, s)
    ensures forall n :: 0 <= n <= |rs| && IsCurrent(db, codec, rs, calendarId, n, s) ==>
      LeadsTo(Run(db, codec, rs[..n]), Run(db, codec, rs), calendarId, s)
  {
    EveryNumberWasCurrent(db, codec, rs, calendarId, s);
    var m :| 0 <= m <= |rs| && SyncSeq(Run(db, codec, rs[..m]), calendarId) == s;
    assert IsCurrent(db, codec, rs, calendarId, m, s);
    forall n | 0 <= n <= |rs| && IsCurrent(db, codec, rs, calendarId, n, s)
      ensures LeadsTo(Run(db, codec, rs[..n]), Run(db, codec, rs), calendarId, s)
    {
      RunKeepsInv(db, codec, rs[..n]);
      RunSplit(db, codec, rs, n);
      RunLeadsOn(Run(db, codec, rs[..n]), codec, rs[n..], Run(db, codec, rs), calendarId);
    }
  }

  lemma {:induction false} RunSplit(db: Db, codec: Codec, rs: seq<Request>, n: nat)
    requires n <= |rs|
    ensures Run(db, codec, rs) == Run(Run(db, codec, rs[..n]), codec, rs[n..])
  {
    if n == |rs| {
      assert rs[..n] == rs;
    } else {
      var k := |rs| - 1;
      RunSplit(db, codec, rs[..k], n);
      assert rs[..k][..n] == rs[..n] && rs[..k][n..] == rs[n..][..k - n];
    }
  }

  // ----- Component types and histories -----

  lemma {:induction false} ChangesAfterSnoc(journal: seq<Change>, c: Change, calendarId: int, since: int)
    ensures ChangesAfter(journal + [c], calendarId, since) ==
      ChangesAfter(journal, calendarId, since) + if c.calendarId == calendarId && c.seqNo > since then [c] else []
  {
    assert (journal + [c])[..|journal|] == journal;
  }

  lemma {:induction false} SyncSeqGrows(db: Db, codec: Codec, rs: seq<Request>, calendarId: int)
    ensures SyncSeq(db, calendarId) <= SyncSeq(Run(db, codec, rs), calendarId)
  {
    if rs != [] { SyncSeqGrows(db, codec, rs[..|rs| - 1], calendarId); }
  }

  /** One request that writes no deletion of an object keeps it and its type. */
  lemma {:induction false} StepKeepsType(db: Db, codec: Codec, r: Request, calendarId: int, href: string, id: int)
    requires UniqueKeys(db.rows) && id in db.rows && At(db.rows[id], calendarId, href)
    requires forall c :: c in ChangesAfter(Step(db, codec, r).journal, calendarId, SyncSeq(db, calendarId)) ==>
      !(c.op.Deleted? && c.href == href)
    ensures var now := Step(db, codec, r);
      id in now.rows && At(now.rows[id], calendarId, href) && now.rows[id].componentType == db.rows[id].componentType
  {
    match r
    case Put(q) => PutKeepsType(db, codec, q, calendarId, href, id);
    case Delete(q) =>
      if DeleteError(db, q).None? {
        var c := Step(db, codec, r).journal[|db.journal|];
        ChangesAfterSnoc(db.journal, c, calendarId, SyncSeq(db, calendarId));
        assert c.calendarId == calendarId ==> c in ChangesAfter(Step(db, codec, r).journal, calendarId, SyncSeq(db, calendarId));
      }
  }

  lemma {:induction false} PutKeepsType(db: Db, codec: Codec, q: PutRequest, calendarId: int, href: string, id: int)
    requires UniqueKeys(db.rows) && id in db.rows && At(db.rows[id], calendarId, href)
    ensures var rows := PutState(db, codec, q).rows;
      id in rows && At(rows[id], calendarId, href) && rows[id].componentType == db.rows[id].componentType
  {
    IdAtUnique(db.rows, calendarId, href, id);
  }

  lemma {:induction false} ChangesAfterWeaken(journal: seq<Change>, calendarId: int, since: int, later: int)
    requires since <= later
    ensures forall c :: c in ChangesAfter(journal, calendarId, later) ==> c in ChangesAfter(journal, calendarId, since)
  {
    if journal != [] { ChangesAfterWeaken(journal[..|journal| - 1], calendarId, since, later); }
  }

  lemma {:induction false} StepExtendsChanges(db: Db, codec: Codec, r: Request, calendarId: int, since: int)
    ensures forall c :: c in ChangesAfter(db.journal, calendarId, since) ==>
      c in ChangesAfter(Step(db, codec, r).journal, calendarId, since)
  {
    var next := Step(db, codec, r);
    if next.journal != db.journal {
      ChangesAfterSnoc(db.journal, next.journal[|db.journal|], calendarId, since);
    }
  }

  /** Between its `added` and its `deleted` entry an object keeps its type. */
  lemma {:induction false} TypeConstant(db: Db, codec: Codec, rs: seq<Request>, calendarId: int, href: string, id: int)
    requires Inv(db, codec) && id in db.rows && At(db.rows[id], calendarId, href)
    requires forall c :: c in ChangesAfter(Run(db, codec, rs).journal, calendarId, SyncSeq(db, calendarId)) ==>
      !(c.op.Deleted? && c.href == href)
    ensures var now := Run(db, codec, rs);
      id in now.rows && At(now.rows[id], calendarId, href) && now.rows[id].componentType == db.rows[id].componentType
  {
    if rs != [] {
      var n := |rs| - 1;
      var mid := Run(db, codec, rs[..n]);
      StepExtendsChanges(mid, codec, rs[n], calendarId, SyncSeq(db, calendarId));
      TypeConstant(db, codec, rs[..n], calendarId, href, id);
      RunKeepsInv(db, codec, rs[..n]);
      SyncSeqGrows(db, codec, rs[..n], calendarId);
      ChangesAfterWeaken(Run(db, codec, rs).journal, calendarId, SyncSeq(db, calendarId), SyncSeq(mid, calendarId));
      StepKeepsType(mid, codec, rs[n], calendarId, href, id);
    }
  }

  /** The first round of a word spans n letters; the rest are further rounds. */
  ghost predicate RoundEnds(word: seq<Op>, n: nat, open: bool)
    decreases |word|, 0
  {
    && 1 <= n <= |word| && word[0] == Added
    && (forall i :: 1 <= i < n ==> word[i] == Modified)
    && if n == |word| then open else word[n] == Deleted && Rounds(word[n + 1..], open)
  }

  /** The shape (added modified* deleted)*, the last round possibly still open. */
  ghost predicate Rounds(word: seq<Op>, open: bool)
    decreases |word|, 1
  {
    if word == [] then !open else exists n: nat :: RoundEnds(word, n, open)
  }

  lemma {:induction false} RoundsSnoc(word: seq<Op>, open: bool, next: Op)
    requires Rounds(word, open)
    requires next == Added <==> !open
    ensures Rounds(word + [next], next != Deleted)
    decreases |word|
  {
    var longer := word + [next];
    if word == [] {
      assert RoundEnds(longer, 1, true);
    } else {
      var n: nat :| RoundEnds(word, n, open);
      if n < |word| {
        RoundsSnoc(word[n + 1..], open, next);
        assert longer[n + 1..] == word[n + 1..] + [next];
        assert RoundEnds(longer, n, next != Deleted);
      } else if next == Modified {
        assert RoundEnds(longer, n + 1, true);
      } else {
        assert longer[n + 1..] == [] && Rounds(longer[n + 1..], false);
        assert RoundEnds(longer, n, false);
      }
    }
  }

  lemma {:induction false} LifeIsRounds(word: seq<Op>)
    requires Life(word).Some?
    ensures Rounds(word, Life(word).value)
  {
    if word != [] {
      var n := |word| - 1;
      LifeIsRounds(word[..n]);
      RoundsSnoc(word[..n], Life(word[..n]).value, word[n]);
      assert word == word[..n] + [word[n]];
    }
  }

  /** After any run, an href's journal is a sequence of rounds, open exactly when
      an object is present there. */
  lemma {:induction false} JournalIsRounds(db: Db, codec: Codec, rs: seq<Request>, calendarId: int, href: string)
    requires Inv(db, codec)
    ensures var now := Run(db, codec, rs);
      Rounds(Letters(Entries(now.journal, calendarId), href), Present(now.rows, calendarId, href))
  {
    RunKeepsInv(db, codec, rs);
    assert JournalOf(Run(db, codec, rs), calendarId);
    LifeIsRounds(Letters(Entries(Run(db, codec, rs).journal, calendarId), href));
  }

  // ----- The store itself -----

  /** In every reachable store, reached by requests of which any may fail: hrefs and
      UIDs are unique, columns are those of the bodies, the whole journal of a
      calendar rebuilds its map, and each href's journal is a sequence of rounds. */
  lemma {:induction false} ReachableStore(codec: Codec, calendarIds: set<int>, rs: seq<Request>, calendarId: int, href: string)
    ensures var db := Run(Fresh(calendarIds), codec, rs);
      && UniqueKeys(db.rows) && Denormalised(db.rows, codec)
      && Holds(db.rows, calendarId, Replay(ChangesAfter(db.journal, calendarId, 0), map[]))
      && Rounds(Letters(Entries(db.journal, calendarId), href), Present(db.rows, calendarId, href))
  {
    FreshStoreInv(codec, calendarIds);
    RunKeepsInv(Fresh(calendarIds), codec, rs);
    JournalReplay(Fresh(calendarIds), codec, rs, calendarId, map[]);
    JournalIsRounds(Fresh(calendarIds), codec, rs, calendarId, href);
  }

  datatype StoreResult = Accepted(id: int, row: Row) | Refused(error: StoreError)

  class Store {
    var rows: map<int, Row>
    var calendars: map<int, Calendar>
    var journal: seq<Change>

    ghost function State(): Db
      reads this
    {
      Db(rows, calendars, journal)
    }

    constructor (calendarIds: set<int>)
      ensures State() == Fresh(calendarIds)
      ensures forall codec :: Inv(State(), codec)
    {
      rows, journal := map[], [];
      calendars := map id | id in calendarIds :: Calendar(0, "0");
      new;
      forall codec ensures Inv(State(), codec) { FreshStoreInv(codec, calendarIds); }
    }

    method FindByHref(calendarId: int, href: string) returns (found: Option<int>)
      ensures found.Some? == Present(rows, calendarId, href)
      ensures found.Some? ==> found.value in rows && At(rows[found.value], calendarId, href)
    {
      if id :| id in rows && At(rows[id], calendarId, href) {
        found := Some(id);
      } else {
        found := None;
      }
    }

    /** Counts the sequence up and derives the ctag; a failure may leave the
        count raised for the caller to roll back. */
    method BumpSync(calendarId: int, faults: set<Statement>) returns (seqNo: Option<nat>)
      modifies this`calendars
      ensures seqNo.None? <==> calendarId !in old(calendars) || BumpSeq in faults || SetCtag in faults
      ensures seqNo.Some? ==> calendars == Bumped(old(calendars), calendarId) && seqNo.value == calendars[calendarId].syncSeq
    {
      if BumpSeq in faults || calendarId !in calendars { return None; }
      var next := calendars[calendarId].syncSeq + 1;
      calendars := calendars[calendarId := calendars[calendarId].(syncSeq := next)];
      if SetCtag in faults { return None; }
      calendars := calendars[calendarId := calendars[calendarId].(ctag := Decimal(next))];
      seqNo := Some(next);
    }

    method PutObject(codec: Codec, q: PutRequest) returns (r: StoreResult)
      requires UniqueKeys(rows)
      modifies this
      ensures State() == PutState(old(State()), codec, q)
      ensures match r
        case Refused(error) => PutError(old(State()), codec, q) == Some(error)
        case Accepted(id, row) => PutError(old(State()), codec, q) == None && id in rows && rows[id] == row && At(row, q.calendarId, q.href)
    {
      var parsed := ParseBlob(codec, q.blob);
      if parsed.None? { return Refused(Malformed); }
      var p := parsed.value;
      var etag := codec.digest(q.blob);

      if Begin in q.faults || FindUid in q.faults { return Refused(Storage); }
      if TakesUid(rows, q.calendarId, p.uid, q.href) { return Refused(UidConflict); }
      if FindHref in q.faults { return Refused(Storage); }
      var existing := FindByHref(q.calendarId, q.href);
      if existing.Some? {
        IdAtUnique(rows, q.calendarId, q.href, existing.value);
        if rows[existing.value].componentType != p.componentType { return Refused(ComponentSwap); }
      }

      var before, beforeCalendars, beforeJournal := rows, calendars, journal;
      var id, createdAt, op := q.newId, q.now, Added;
      if existing.Some? {
        id, createdAt, op := existing.value, rows[existing.value].createdAt, Modified;
      } else if q.newId in rows {
        return Refused(Storage);
      }
      if WriteRow in q.faults { return Refused(Storage); }
      var row := Row(q.calendarId, p.uid, q.href, etag, q.blob, |q.blob|, p.componentType, p.first, p.last,
                     p.hasRrule, p.hasScheduling, createdAt, q.now);
      rows := rows[id := row];
      var seqNo := BumpSync(q.calendarId, q.faults);
      if seqNo.None? || AppendChange in q.faults {
        rows, calendars, journal := before, beforeCalendars, beforeJournal;
        return Refused(Storage);
      }
      journal := journal + [Change(q.calendarId, seqNo.value, op, q.href, etag)];
      if Commit in q.faults {
        rows, calendars, journal := before, beforeCalendars, beforeJournal;
        return Refused(Storage);
      }
      r := Accepted(id, row);
    }

    method DeleteObject(q: DeleteRequest) returns (error: Option<StoreError>)
      modifies this
      ensures State() == DeleteState(old(State()), q) && error == DeleteError(old(State()), q)
    {
      if Begin in q.faults || WriteRow in q.faults { return Some(Storage); }
      var existing := FindByHref(q.calendarId, q.href);
      if existing.None? { return Some(NotFound); }
      var before, beforeCalendars, beforeJournal := rows, calendars, journal;
      rows := map id | id in rows && !At(rows[id], q.calendarId, q.href) :: rows[id];
      var seqNo := BumpSync(q.calendarId, q.faults);
      if seqNo.None? || AppendChange in q.faults {
        rows, calendars, journal := before, beforeCalendars, beforeJournal;
        return Some(Storage);
      }
      journal := journal + [Change(q.calendarId, seqNo.value, Deleted, q.href, "")];
      if Commit in q.faults {
        rows, calendars, journal := before, beforeCalendars, beforeJournal;
        return Some(Storage);
      }
      error := None;
    }

    method ChangesSince(calendarId: int, since: int) returns (changes: seq<Change>)
      ensures changes == ChangesAfter(journal, calendarId, since)
    {
      changes := [];
      for i := 0 to |journal|
        invariant changes == ChangesAfter(journal[..i], calendarId, since)
      {
        assert journal[..i + 1][..i] == journal[..i];
        if journal[i].calendarId == calendarId && journal[i].seqNo > since { changes := changes + [journal[i]]; }
      }
      assert journal[..|journal|] == journal;
    }
  }
}
