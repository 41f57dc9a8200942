/**
 The device's offline scan queue: one JSON file holding the whole list of
 scans, newest addition first. Every operation reads the whole list and
 rewrites it; reading never fails (anything unreadable counts as no scans).
 The file system, the clock and the id generator are parameters.
 */
module LocalScans {
  import opened Wrappers
  import opened ScanTypes
  import Seqs

  /** The owner recorded when a scan is added without a user. */
  const LocalUserId: string := "local"

  /**
   One stored scan. Records come back from a JSON file, so the fields the
   queue relies on are optional the way the parsed JSON can lack them.
   */
  datatype StoredScan = StoredScan(
    id: string,
    userId: Option<string>,
    timestamp: Option<int>,
    context: ScanContext,
    score: SustainabilityScore,
    action: Action,
    createdAt: string,
    updatedAt: string,
    pending: Option<bool>)

  /**
   What the storage file holds, classified the way reading it sees it:
   the file system fails, the file is missing, its text is empty, its text
   is not JSON, its JSON is not an array, or it is an array of records.
   */
  datatype Disk =
    | Unreadable
    | NoFile
    | EmptyText
    | Malformed
    | NotAnArray
    | Records(items: seq<StoredScan>)

  /** `readAll`: the stored list, or the empty list whatever goes wrong. */
  function ReadAll(disk: Disk): (items: seq<StoredScan>)
    ensures !disk.Records? ==> items == []
  {
    match disk
    case Records(items) => items
    case _ => []
  }

  /** `writeAll`: the file afterwards holds exactly `items` (serialisation is lossless). */
  function WriteAll(items: seq<StoredScan>): (disk: Disk)
    ensures disk.Records?
  {
    Records(items)
  }

  /** Whatever was written is what the next read returns. */
  lemma ReadAfterWrite(items: seq<StoredScan>)
    ensures ReadAll(WriteAll(items)) == items
  {
  }

  /** Reading fails open: every disk that does not hold an array reads as no scans. */
  lemma ReadFailsOpen(disk: Disk)
    requires disk in {Unreadable, NoFile, EmptyText, Malformed, NotAnArray}
    ensures ReadAll(disk) == []
  {
  }

  // ---------------------------------------------------------------------
  // add
  // ---------------------------------------------------------------------

  /** The argument of `add`: what to store, with the three optional fields. */
  datatype AddRequest = AddRequest(
    context: ScanContext,
    score: SustainabilityScore,
    action: Action,
    timestamp: Option<int>,
    pending: Option<bool>,
    userId: Option<string>)

  /** `add` either returns the record it persisted, or rejects because the write failed. */
  datatype AddOutcome = Added(record: StoredScan, disk: Disk) | AddFailed

  /** `scan.userId || 'local'`: an absent or empty owner becomes the local sentinel. */
  function OwnerOrLocal(userId: Option<string>): (owner: string)
    ensures owner != ""
    ensures userId.Some? && userId.value != "" ==> owner == userId.value
    ensures userId == None || userId == Some("") ==> owner == LocalUserId
  {
    if userId.Some? && userId.value != "" then userId.value else LocalUserId
  }

  /** The record `add` builds from the request and the collaborators' values. */
  function NewRecord(req: AddRequest, freshId: string, nowMs: int, createdIso: string, updatedIso: string): StoredScan {
    StoredScan(freshId, Some(OwnerOrLocal(req.userId)), Some(req.timestamp.GetOr(nowMs)),
               req.context, req.score, req.action, createdIso, updatedIso, Some(req.pending.GetOr(false)))
  }

  /**
   `add`: reads the list, puts the new record in front and rewrites the
   whole list. The id, the clock and the two ISO stamps are inputs;
   `writeOk` says whether the rewrite succeeds.
   */
  function Add(disk: Disk, req: AddRequest, freshId: string, nowMs: int,
               createdIso: string, updatedIso: string, writeOk: bool): (r: AddOutcome)
    ensures r.Added? <==> writeOk
    ensures r.Added? ==>
      && ReadAll(r.disk) == [r.record] + ReadAll(disk)
      && r.record.id == freshId
      && r.record.context == req.context && r.record.score == req.score && r.record.action == req.action
      && r.record.userId == Some(OwnerOrLocal(req.userId))
      && (req.timestamp.Some? ==> r.record.timestamp == req.timestamp)
      && (req.timestamp.None? ==> r.record.timestamp == Some(nowMs))
      && (req.pending.Some? ==> r.record.pending == req.pending)
      && (req.pending.None? ==> r.record.pending == Some(false))
      && r.record.createdAt == createdIso && r.record.updatedAt == updatedIso
  {
    var all := ReadAll(disk);
    var record := NewRecord(req, freshId, nowMs, createdIso, updatedIso);
    if writeOk then Added(record, WriteAll([record] + all)) else AddFailed
  }

  /** After `add`, the list is one longer and every earlier record follows, unchanged and in order. */
  lemma AddShiftsEarlierRecords(disk: Disk, req: AddRequest, freshId: string, nowMs: int,
                                createdIso: string, updatedIso: string)
    ensures var r := Add(disk, req, freshId, nowMs, createdIso, updatedIso, true);
      && |ReadAll(r.disk)| == |ReadAll(disk)| + 1
      && ReadAll(r.disk)[0] == r.record
      && forall i :: 0 <= i < |ReadAll(disk)| ==> ReadAll(r.disk)[i + 1] == ReadAll(disk)[i]
  {
  }

  /**
   Adding to a file that cannot be read as a list discards its content:
   afterwards the file holds the new record alone.
   */
  lemma AddOverwritesUnreadableFile(disk: Disk, req: AddRequest, freshId: string, nowMs: int,
                                    createdIso: string, updatedIso: string)
    requires !disk.Records?
    ensures var r := Add(disk, req, freshId, nowMs, createdIso, updatedIso, true);
      r.disk == Records([r.record])
  {
  }

  /** A zero timestamp is a value, not an absence: `??` keeps it. */
  lemma ZeroTimestampKept(disk: Disk, req: AddRequest, freshId: string, nowMs: int,
                          createdIso: string, updatedIso: string)
    requires req.timestamp == Some(0) && req.pending == Some(false)
    ensures var r := Add(disk, req, freshId, nowMs, createdIso, updatedIso, true);
      r.record.timestamp == Some(0) && r.record.pending == Some(false)
  {
  }

  // ---------------------------------------------------------------------
  // getAll
  // ---------------------------------------------------------------------

  /** The sort key of `getAll`: the timestamp, a missing one counting as 0. */
  function Recency(s: StoredScan): int {
    s.timestamp.GetOr(0)
  }

  /** `getAll(userId)` keeps a record when no (or an empty) user is given, or when it is that user's. */
  predicate Visible(s: StoredScan, userId: Option<string>) {
    userId.None? || userId.value == "" || s.userId == userId
  }

  /** The user filter of `getAll`, before sorting. */
  function OwnedBy(all: seq<StoredScan>, userId: Option<string>): (r: seq<StoredScan>)
    ensures forall s :: s in r <==> s in all && Visible(s, userId)
  {
    if userId.Some? && userId.value != "" then Seqs.Filter(all, (s: StoredScan) => s.userId == userId)
    else all
  }

  /**
   `getAll`: the visible records, newest first. It reads but never writes,
   so it takes the disk and returns only the list.
   */
  function GetAll(disk: Disk, userId: Option<string>): (r: seq<StoredScan>)
    ensures multiset(r) == multiset(OwnedBy(ReadAll(disk), userId))
    ensures forall s :: s in r <==> s in ReadAll(disk) && Visible(s, userId)
    ensures forall i, j :: 0 <= i < j < |r| ==> Recency(r[i]) >= Recency(r[j])
  {
    var filtered := OwnedBy(ReadAll(disk), userId);
    var r := Seqs.SortDesc(filtered, Recency);
    assert forall s :: s in r <==> s in multiset(filtered);
    r
  }

  /** Without a user, `getAll` returns every stored record. */
  lemma GetAllWithoutUserKeepsEverything(disk: Disk)
    ensures multiset(GetAll(disk, None)) == multiset(ReadAll(disk))
    ensures multiset(GetAll(disk, Some(""))) == multiset(ReadAll(disk))
  {
  }

  /**
   The sort is stable: records with the same timestamp come out in stored
   order, which is most recent `add` first.
   */
  lemma GetAllKeepsTies(disk: Disk, userId: Option<string>, k: int)
    ensures Seqs.Ties(GetAll(disk, userId), Recency, k) == Seqs.Ties(OwnedBy(ReadAll(disk), userId), Recency, k)
  {
    Seqs.SortDescStable(OwnedBy(ReadAll(disk), userId), Recency, k);
  }

  /**
   A record added with a timestamp no older than any record its owner
   already has is the first one `getAll` returns for that owner.
   */
  lemma AddThenGetAllFirst(disk: Disk, req: AddRequest, freshId: string, nowMs: int,
                           createdIso: string, updatedIso: string)
    requires var r := Add(disk, req, freshId, nowMs, createdIso, updatedIso, true);
      forall s :: s in ReadAll(disk) && s.userId == r.record.userId ==> Recency(s) <= Recency(r.record)
    ensures var r := Add(disk, req, freshId, nowMs, createdIso, updatedIso, true);
      var listed := GetAll(r.disk, r.record.userId);
      |listed| > 0 && listed[0] == r.record
  {
    var r := Add(disk, req, freshId, nowMs, createdIso, updatedIso, true);
    var owner := r.record.userId;
    var p := (s: StoredScan) => s.userId == owner;
    var rest := Seqs.Filter(ReadAll(disk), p);
    assert OwnedBy(ReadAll(r.disk), owner) == [r.record] + rest by {
      Seqs.FilterAppend([r.record], ReadAll(disk), p);
    }
    Seqs.SortDescFront(r.record, rest, Recency);
  }

  // ---------------------------------------------------------------------
  // markSynced
  // ---------------------------------------------------------------------

  /** `findIndex(s => s.id === id)`: the first position holding `id`, if any. */
  function FirstIndex(items: seq<StoredScan>, id: string): (r: Option<nat>)
    ensures r.Some? ==> r.value < |items| && items[r.value].id == id
    ensures r.Some? ==> forall k :: 0 <= k < r.value ==> items[k].id != id
    ensures r.None? <==> forall k :: 0 <= k < |items| ==> items[k].id != id
    decreases |items|
  {
    if |items| == 0 then None
    else if items[0].id == id then Some(0)
    else match FirstIndex(items[1..], id)
      case None => None
      case Some(i) => Some(i + 1)
  }

  /**
   `markSynced`: the first record with `id` becomes not pending with a fresh
   `updatedAt`, and the list is rewritten. An unknown id writes nothing.
   `None` is the rejection of a failed rewrite; otherwise the disk after.
   */
  function MarkSynced(disk: Disk, id: string, nowIso: string, writeOk: bool): (r: Option<Disk>)
    ensures FirstIndex(ReadAll(disk), id).None? ==> r == Some(disk)
    ensures r.None? <==> FirstIndex(ReadAll(disk), id).Some? && !writeOk
    ensures r.Some? && FirstIndex(ReadAll(disk), id).Some? ==>
      var all := ReadAll(disk);
      var i := FirstIndex(all, id).value;
      var after := ReadAll(r.value);
      && |after| == |all|
      && after[i] == all[i].(pending := Some(false), updatedAt := nowIso)
      && (forall j :: 0 <= j < |all| && j != i ==> after[j] == all[j])
  {
    var all := ReadAll(disk);
    match FirstIndex(all, id)
    case None => Some(disk)
    case Some(i) =>
      if writeOk then Some(WriteAll(all[i := all[i].(pending := Some(false), updatedAt := nowIso)]))
      else None
  }

  /** Marking never changes any record's id, so the first match stays where it was. */
  lemma MarkSyncedKeepsIds(disk: Disk, id: string, nowIso: string, other: string)
    requires MarkSynced(disk, id, nowIso, true).Some?
    ensures FirstIndex(ReadAll(MarkSynced(disk, id, nowIso, true).value), other) == FirstIndex(ReadAll(disk), other)
  {
    var all := ReadAll(disk);
    var after := ReadAll(MarkSynced(disk, id, nowIso, true).value);
    if FirstIndex(all, id).Some? {
      assert |after| == |all|;
      assert forall k :: 0 <= k < |all| ==> after[k].id == all[k].id;
      IdsDecideFirstIndex(all, after, other);
    }
  }

  /** Two lists with the same ids position by position agree on every first index. */
  lemma {:induction false} IdsDecideFirstIndex(a: seq<StoredScan>, b: seq<StoredScan>, id: string)
    requires |a| == |b|
    requires forall k :: 0 <= k < |a| ==> a[k].id == b[k].id
    ensures FirstIndex(a, id) == FirstIndex(b, id)
    decreases |a|
  {
    if |a| > 0 && a[0].id != id {
      IdsDecideFirstIndex(a[1..], b[1..], id);
    }
  }

  /** Marking twice is marking once with the later time: the record stays not pending. */
  lemma MarkSyncedTwice(disk: Disk, id: string, iso1: string, iso2: string)
    requires MarkSynced(disk, id, iso1, true).Some?
    ensures var once := MarkSynced(disk, id, iso1, true).value;
      MarkSynced(once, id, iso2, true) == MarkSynced(disk, id, iso2, true)
  {
    var all := ReadAll(disk);
    var once := MarkSynced(disk, id, iso1, true).value;
    MarkSyncedKeepsIds(disk, id, iso1, id);
    match FirstIndex(all, id)
    case None =>
    case Some(i) =>
      var mid := all[i := all[i].(pending := Some(false), updatedAt := iso1)];
      assert ReadAll(once) == mid;
      assert mid[i := mid[i].(pending := Some(false), updatedAt := iso2)]
          == all[i := all[i].(pending := Some(false), updatedAt := iso2)];
  }

  /** A synced record reads back as not pending. */
  lemma MarkSyncedClearsPending(disk: Disk, id: string, nowIso: string)
    requires FirstIndex(ReadAll(disk), id).Some?
    ensures var after := ReadAll(MarkSynced(disk, id, nowIso, true).value);
      var i := FirstIndex(after, id).value;
      FirstIndex(after, id).Some? && after[i].pending == Some(false) && after[i].updatedAt == nowIso
  {
    MarkSyncedKeepsIds(disk, id, nowIso, id);
  }
}
