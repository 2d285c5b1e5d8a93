/**
 The owner mailboxes: event files under `<key>/unread` and `<key>/acked`, hard caps, no-overwrite
 writes, moves between mailboxes, acknowledgement with bounded retention, and durable loss counts.

 The namespace is a value; one flock section is one step on it. `persisted` and `pruned` are
 history: every id that ever landed, and where an acknowledged file was when retention removed it.

 Retrying a held gap is not one section but several: reading what is held, two looks at the
 directories, the locked write, and the two halves of clearing. Each is a step, and any number of
 retries may be under way (`tries`).
 */
module Mailbox {
  import opened Chains
  import opened JsText
  import opened Options

  const MAX_FILES: nat := 500
  const MAX_BYTES: nat := 8 * 1024 * 1024
  const GLOBAL_MAX_FILES: nat := 5_000
  const RETAINED: nat := 1_000

  /** One event file: the mailbox it is in and its event id (ids sort by time). */
  datatype Place = Place(key: string, id: JsString)

  type Files = map<Place, nat>   // unread files with their sizes in bytes

  datatype Gap = Gap(id: JsString, size: nat)

  datatype Account = Account(count: nat, firstAt: nat, lastAt: nat)

  datatype State = State(
    boxes: set<string>,
    unread: Files,
    acked: set<Place>,
    lost: map<string, Account>,
    held: map<string, Gap>,
    degraded: bool,
    persisted: set<JsString>,
    pruned: set<Place>,
    tries: map<nat, Try>)

  /** How far the retry of a held gap has come; `Clearing` has read what is held and is about to write it back. */
  datatype Stage = AtStart | NotUnread | Missing | Landed | Clearing(read: map<string, Gap>)

  /** A retry works on the gap that was held for the mailbox when it began. */
  datatype Try = Try(key: string, gap: Gap, stage: Stage)

  // ---- Counting ---------------------------------------------------------------------------

  ghost function Total(files: Files): nat {
    if files == map[] then 0 else var p :| p in files; files[p] + Total(files - {p})
  }

  lemma {:induction false} TotalRemove(files: Files, p: Place)
    requires p in files
    ensures Total(files) == files[p] + Total(files - {p})
    decreases |files|
  {
    var q :| q in files && Total(files) == files[q] + Total(files - {q});
    if p != q {
      TotalRemove(files - {q}, p);
      TotalRemove(files - {p}, q);
      assert files - {q} - {p} == files - {p} - {q};
    }
  }

  function In(files: Files, key: string): Files {
    map p | p in files && p.key == key :: files[p]
  }

  function FileCount(files: Files, key: string): nat {
    |In(files, key)|
  }

  ghost function ByteCount(files: Files, key: string): nat {
    Total(In(files, key))
  }

  ghost predicate AtCap(s: State, key: string, addBytes: nat) {
    || FileCount(s.unread, key) + 1 > MAX_FILES
    || ByteCount(s.unread, key) + addBytes > MAX_BYTES
    || |s.unread| + 1 > GLOBAL_MAX_FILES
  }

  /** Some mailbox, or all of them together, has reached a cap. */
  ghost predicate Degraded(s: State) {
    || (exists key :: key in s.boxes && (FileCount(s.unread, key) >= MAX_FILES || ByteCount(s.unread, key) >= MAX_BYTES))
    || |s.unread| >= GLOBAL_MAX_FILES
  }

  // ---- Writing ---------------------------------------------------------------------------

  datatype Fault = NoFault | BeforeLink | AfterLink

  datatype Reason = Capacity | Collision | Unavailable

  datatype WriteResult = Persisted(id: JsString) | NotPersisted(id: JsString, reason: Reason, pendingGap: bool)

  function WithBox(s: State, key: string): State {
    s.(boxes := s.boxes + {key})
  }

  /** One loss more in the durable account; a status record that cannot be written claims nothing. */
  function CountLoss(s: State, key: string, at: nat, statusOk: bool): State {
    if !statusOk then s
    else
      var account := if key in s.lost then Account(s.lost[key].count + 1, s.lost[key].firstAt, at) else Account(1, at, at);
      s.(degraded := true, lost := s.lost[key := account])
  }

  function Hold(s: State, key: string, gap: Gap): State {
    s.(degraded := true, held := s.held[key := gap])
  }

  function Land(s: State, key: string, id: JsString, size: nat): State {
    s.(unread := s.unread[Place(key, id) := size], persisted := s.persisted + {id})
  }

  ghost function Assessed(s: State, statusOk: bool): State {
    if statusOk then s.(degraded := Degraded(s)) else s
  }

  ghost function PersistStep(s: State, key: string, id: JsString, size: nat, hold: Option<Gap>, at: nat, statusOk: bool, fault: Fault): (State, WriteResult) {
    var s1 := WithBox(s, key);
    if AtCap(s1, key, size) then
      if hold.Some? && statusOk then (Hold(s1, key, hold.value), NotPersisted(id, Capacity, true))
      else (CountLoss(s1, key, at, statusOk), NotPersisted(id, Capacity, false))
    else if fault == BeforeLink then (CountLoss(s1, key, at, statusOk), NotPersisted(id, Unavailable, false))
    else if Place(key, id) in s1.unread then (CountLoss(s1, key, at, statusOk), NotPersisted(id, Collision, false))
    else if fault == AfterLink then (CountLoss(Land(s1, key, id, size), key, at, statusOk), NotPersisted(id, Unavailable, false))
    else (Assessed(Land(s1, key, id, size), statusOk), Persisted(id))
  }

  predicate OnDisk(s: State, key: string, id: JsString) {
    Place(key, id) in s.unread || Place(key, id) in s.acked
  }

  /** A recorded event already unread or already handled in this mailbox proves the step landed. */
  ghost function RecordedStep(s: State, key: string, id: JsString, size: nat, at: nat, statusOk: bool, fault: Fault): (State, WriteResult) {
    if OnDisk(s, key, id) then (WithBox(s, key), Persisted(id))
    else PersistStep(s, key, id, size, None, at, statusOk, fault)
  }

  /** The unlocked parts of a retry. */
  datatype Part = Begin(key: string) | SeeUnread | SeeAcked | ReadHeld | Clear(statusOk: bool)

  predicate IsAt(s: State, t: nat, stage: Stage) {
    t in s.tries && s.tries[t].stage == stage
  }

  predicate IsClearing(s: State, t: nat) {
    t in s.tries && s.tries[t].stage.Clearing?
  }

  function Reaches(s: State, t: nat, stage: Stage): State
    requires t in s.tries
  {
    s.(tries := s.tries[t := s.tries[t].(stage := stage)])
  }

  /** The copy on disk proves that the gap landed; the clear writes back what it read, but for this mailbox. */
  function PartStep(s: State, t: nat, part: Part): State {
    match part
    case Begin(key) => if t in s.tries || key !in s.held then s else s.(tries := s.tries[t := Try(key, s.held[key], AtStart)])
    case SeeUnread =>
      if !IsAt(s, t, AtStart) then s else Reaches(s, t, if Place(s.tries[t].key, s.tries[t].gap.id) in s.unread then Landed else NotUnread)
    case SeeAcked =>
      if !IsAt(s, t, NotUnread) then s else Reaches(s, t, if Place(s.tries[t].key, s.tries[t].gap.id) in s.acked then Landed else Missing)
    case ReadHeld => if !IsAt(s, t, Landed) then s else Reaches(s, t, Clearing(s.held))
    case Clear(statusOk) =>
      if !IsClearing(s, t) then s
      else s.(held := if statusOk then s.tries[t].stage.read - {s.tries[t].key} else s.held, tries := s.tries - {t})
  }

  /** The locked part: the gap of a retry that found it nowhere is written, and a refused one is held again. */
  ghost function RetryStep(s: State, t: nat, at: nat, statusOk: bool, fault: Fault): State {
    if !IsAt(s, t, Missing) then s
    else
      var (u, r) := RetryWrite(s, t, at, statusOk, fault);
      if r.Persisted? then Reaches(u, t, Landed) else u.(tries := u.tries - {t})
  }

  ghost function RetryWrite(s: State, t: nat, at: nat, statusOk: bool, fault: Fault): (r: (State, WriteResult))
    requires t in s.tries
    ensures r.0.tries == s.tries
  {
    var y := s.tries[t];
    PersistKeepsTries(s, y.key, y.gap.id, y.gap.size, Some(y.gap), at, statusOk, fault);
    PersistStep(s, y.key, y.gap.id, y.gap.size, Some(y.gap), at, statusOk, fault)
  }

  // ---- Moving ----------------------------------------------------------------------------

  datatype Moves = Moves(moved: seq<JsString>, already: seq<JsString>, lost: seq<JsString>)

  function MoveFile(files: Files, from: string, to: string, id: JsString): Files {
    if Place(from, id) in files then (files - {Place(from, id)})[Place(to, id) := files[Place(from, id)]] else files
  }

  function MoveFiles(files: Files, from: string, to: string, ids: seq<JsString>): Files {
    if ids == [] then files else MoveFile(MoveFiles(files, from, to, ids[..|ids| - 1]), from, to, ids[|ids| - 1])
  }

  function MoveOutcome(files: Files, from: string, to: string, ids: seq<JsString>): Moves {
    if ids == [] then Moves([], [], [])
    else
      var front, id := ids[..|ids| - 1], ids[|ids| - 1];
      var m, f := MoveOutcome(files, from, to, front), MoveFiles(files, from, to, front);
      if Place(from, id) in f then m.(moved := m.moved + [id])
      else if Place(to, id) in f then m.(already := m.already + [id])
      else m.(lost := m.lost + [id])
  }

  function CountLosses(s: State, key: string, times: seq<nat>, statusOk: bool): State {
    if times == [] then s else CountLoss(CountLosses(s, key, times[..|times| - 1], statusOk), key, times[|times| - 1], statusOk)
  }

  function Clocked(clock: nat -> nat, n: nat): seq<nat> {
    seq(n, i requires 0 <= i < n => clock(i))
  }

  /** One flock section over source and destination; one loss account per file found on neither side. */
  ghost function MoveStep(s: State, from: string, to: string, ids: seq<JsString>, clock: nat -> nat, statusOk: bool): (State, Moves) {
    var s1 := s.(boxes := s.boxes + {from, to}, unread := MoveFiles(s.unread, from, to, ids));
    var m := MoveOutcome(s.unread, from, to, ids);
    (Assessed(CountLosses(s1, from, Clocked(clock, |m.lost|), statusOk), statusOk), m)
  }

  // ---- Acknowledging ---------------------------------------------------------------------

  datatype AckResult = Acked | AlreadyAcked | NotFound

  function IdsIn(places: set<Place>, key: string): set<JsString> {
    set p | p in places && p.key == key :: p.id
  }

  /** The oldest ids beyond the retained count. */
  ghost function Excess(ids: set<JsString>): set<JsString> {
    var sorted := SortedSet(ids);
    set i | 0 <= i < |sorted| - RETAINED :: sorted[i]
  }

  ghost function PruneStep(s: State, key: string): State {
    var dropped := set p | p in s.acked && p.key == key && p.id in Excess(IdsIn(s.acked, key));
    s.(acked := s.acked - dropped, pruned := s.pruned + dropped)
  }

  /** The first `n` of a set of ids. */
  ghost function Oldest(ids: set<JsString>, n: nat): set<JsString> {
    var sorted := SortedSet(ids);
    set i | 0 <= i < |sorted| && i < n :: sorted[i]
  }

  /** An acknowledgement cut short after its rename, with `removed` of the excess pruned. */
  ghost function CutAckStep(s: State, key: string, id: JsString, removed: nat): State {
    var s1 := WithBox(s, key);
    var p := Place(key, id);
    if p !in s1.unread then s1
    else
      var acked := s1.acked + {p};
      var dropped := set q | q in acked && q.key == key && q.id in Oldest(Excess(IdsIn(acked, key)), removed);
      s1.(unread := s1.unread - {p}, acked := acked - dropped, pruned := s1.pruned + dropped)
  }

  ghost function AckStep(s: State, key: string, id: JsString, statusOk: bool): (State, AckResult) {
    var s1 := WithBox(s, key);
    var p := Place(key, id);
    if p in s1.unread then
      (Assessed(PruneStep(s1.(unread := s1.unread - {p}, acked := s1.acked + {p}), key), statusOk), Acked)
    else if p in s1.acked then (s1, AlreadyAcked)
    else (s1, NotFound)
  }

  // ---- Runs ------------------------------------------------------------------------------

  datatype Event =
    | Write(key: string, id: JsString, size: nat, at: nat, statusOk: bool, fault: Fault)
    | WriteGap(key: string, gap: Gap, at: nat, statusOk: bool, fault: Fault)
    | WriteRecorded(key: string, id: JsString, size: nat, at: nat, statusOk: bool, fault: Fault)
    | Retrying(t: nat, part: Part)
    | Retry(t: nat, at: nat, statusOk: bool, fault: Fault)
    | Move(from: string, to: string, ids: seq<JsString>, clock: nat -> nat, statusOk: bool)
    | CutMove(from: string, to: string, ids: seq<JsString>)   // the renames of a plan cut short by a crash
    | Ack(key: string, id: JsString, statusOk: bool)
    | CutAck(key: string, id: JsString, removed: nat)          // cut short by a crash or a fault before its return

  ghost function After(s: State, e: Event): State {
    match e
    case Write(key, id, size, at, statusOk, fault) => PersistStep(s, key, id, size, None, at, statusOk, fault).0
    case WriteGap(key, gap, at, statusOk, fault) => PersistStep(s, key, gap.id, gap.size, Some(gap), at, statusOk, fault).0
    case WriteRecorded(key, id, size, at, statusOk, fault) => RecordedStep(s, key, id, size, at, statusOk, fault).0
    case Retrying(t, part) => PartStep(s, t, part)
    case Retry(t, at, statusOk, fault) => RetryStep(s, t, at, statusOk, fault)
    case Move(from, to, ids, clock, statusOk) => MoveStep(s, from, to, ids, clock, statusOk).0
    case CutMove(from, to, ids) => s.(boxes := s.boxes + {from, to}, unread := MoveFiles(s.unread, from, to, ids))
    case Ack(key, id, statusOk) => AckStep(s, key, id, statusOk).0
    case CutAck(key, id, removed) => CutAckStep(s, key, id, removed)
  }

  ghost function Run(s: State, events: seq<Event>): State
    decreases |events|
  {
    if events == [] then s else After(Run(s, events[..|events| - 1]), events[|events| - 1])
  }

  const EMPTY: State := State({}, map[], {}, map[], map[], false, {}, {}, map[])

  // ---- Conservation ------------------------------------------------------------------------

  function Everywhere(s: State): set<Place> {
    s.unread.Keys + s.acked + s.pruned
  }

  /** Each event that ever landed is in exactly one place, and nothing else is anywhere. */
  ghost predicate OnePlace(s: State) {
    && s.unread.Keys !! s.acked !! s.pruned
    && (forall p, q :: p in Everywhere(s) && q in Everywhere(s) && p.id == q.id ==> p == q)
    && s.persisted == set p | p in Everywhere(s) :: p.id
  }

  /** The id that a step would write. */
  function WrittenId(s: State, e: Event): Option<JsString> {
    match e
    case Write(_, id, _, _, _, _) => Some(id)
    case WriteGap(_, gap, _, _, _) => Some(gap.id)
    case WriteRecorded(_, id, _, _, _, _) => Some(id)
    case Retry(t, _, _, _) => if IsAt(s, t, Missing) then Some(s.tries[t].gap.id) else None
    case _ => None
  }

  /** The step lands a file. */
  ghost predicate Lands(s: State, e: Event) {
    WrittenId(s, e).Some? && After(s, e).unread != s.unread
  }

  ghost predicate LandsNew(s: State, e: Event) {
    Lands(s, e) ==> WrittenId(s, e).value !in s.persisted
  }

  ghost predicate SameFiles(s: State, t: State) {
    t.unread == s.unread && t.acked == s.acked && t.pruned == s.pruned && t.persisted == s.persisted
  }

  lemma CountLossesKeepsFiles(s: State, key: string, times: seq<nat>, statusOk: bool)
    ensures SameFiles(s, CountLosses(s, key, times, statusOk))
    ensures CountLosses(s, key, times, statusOk).held == s.held && CountLosses(s, key, times, statusOk).boxes == s.boxes
    ensures CountLosses(s, key, times, statusOk).tries == s.tries
  {
  }

  lemma LandKeepsOnePlace(s: State, key: string, id: JsString, size: nat)
    requires OnePlace(s) && Place(key, id) !in s.unread
    ensures OnePlace(Land(s, key, id, size)) <==> id !in s.persisted
  {
    var t := Land(s, key, id, size);
    var p := Place(key, id);
    assert Everywhere(t) == Everywhere(s) + {p};
    assert forall q :: q in Everywhere(s) ==> q.id in s.persisted;
    if id in s.persisted {
      var q :| q in Everywhere(s) && q.id == id;
      assert q in Everywhere(t) && p in Everywhere(t);
      if q == p {
        assert p in t.unread.Keys && (p in t.acked || p in t.pruned);
      }
    }
  }

  /** The files a write leaves are the files before, or those with the one new file. */
  ghost predicate Wrote(s: State, t: State, key: string, id: JsString, size: nat) {
    SameFiles(s, t) || (Place(key, id) !in s.unread && SameFiles(Land(s, key, id, size), t))
  }

  lemma PersistWrites(s: State, key: string, id: JsString, size: nat, hold: Option<Gap>, at: nat, statusOk: bool, fault: Fault)
    ensures Wrote(s, PersistStep(s, key, id, size, hold, at, statusOk, fault).0, key, id, size)
  {
  }

  /** A write keeps every event in one place exactly when it lands nothing, or an id never seen before. */
  lemma WriteKeepsOnePlace(s: State, t: State, key: string, id: JsString, size: nat)
    requires OnePlace(s) && Wrote(s, t, key, id, size)
    ensures OnePlace(t) <==> (t.unread == s.unread || id !in s.persisted)
  {
    if SameFiles(s, t) {
      SameFilesOnePlace(s, t);
    } else {
      var l := Land(s, key, id, size);
      LandKeepsOnePlace(s, key, id, size);
      assert Everywhere(l) == Everywhere(t);
      assert OnePlace(l) <==> OnePlace(t);
      assert Place(key, id) in t.unread;
    }
  }

  lemma MoveFileKeepsOnePlace(s: State, from: string, to: string, id: JsString)
    requires OnePlace(s)
    ensures OnePlace(s.(unread := MoveFile(s.unread, from, to, id)))
  {
    var t := s.(unread := MoveFile(s.unread, from, to, id));
    var p, q := Place(from, id), Place(to, id);
    if p in s.unread {
      assert t.unread.Keys == s.unread.Keys - {p} + {q};
      assert p in Everywhere(s);
      assert forall r :: r in Everywhere(t) ==> r == q || r in Everywhere(s);
      forall i ensures i in s.persisted <==> exists r :: r in Everywhere(t) && r.id == i {
        if i in s.persisted {
          var r :| r in Everywhere(s) && r.id == i;
          assert if r == p then q in Everywhere(t) else r in Everywhere(t);
        }
      }
    }
  }

  lemma {:induction false} MoveFilesKeepsOnePlace(s: State, from: string, to: string, ids: seq<JsString>)
    requires OnePlace(s)
    ensures OnePlace(s.(unread := MoveFiles(s.unread, from, to, ids)))
  {
    if ids == [] {
      assert s.(unread := s.unread) == s;
    } else {
      var front := ids[..|ids| - 1];
      MoveFilesKeepsOnePlace(s, from, to, front);
      var t := s.(unread := MoveFiles(s.unread, from, to, front));
      MoveFileKeepsOnePlace(t, from, to, ids[|ids| - 1]);
    }
  }

  lemma SameFilesOnePlace(s: State, t: State)
    requires OnePlace(s) && SameFiles(s, t)
    ensures OnePlace(t)
  {
    assert Everywhere(t) == Everywhere(s);
  }

  /** One file renamed from unread to acked, and some acknowledged files pruned. */
  lemma AckedKeepsOnePlace(s: State, t: State, p: Place, dropped: set<Place>)
    requires OnePlace(s) && p in s.unread && dropped <= s.acked + {p}
    requires t.unread == s.unread - {p} && t.acked == s.acked + {p} - dropped && t.pruned == s.pruned + dropped && t.persisted == s.persisted
    ensures OnePlace(t)
  {
    assert Everywhere(t) == Everywhere(s);
  }

  lemma AckKeepsOnePlace(s: State, key: string, id: JsString, statusOk: bool)
    requires OnePlace(s)
    ensures OnePlace(AckStep(s, key, id, statusOk).0)
  {
    var p := Place(key, id);
    if p in s.unread {
      var u := WithBox(s, key).(unread := s.unread - {p}, acked := s.acked + {p});
      var dropped := set q | q in u.acked && q.key == key && q.id in Excess(IdsIn(u.acked, key));
      var t := PruneStep(u, key);
      AckedKeepsOnePlace(s, t, p, dropped);
      SameFilesOnePlace(t, AckStep(s, key, id, statusOk).0);
    } else {
      SameFilesOnePlace(s, AckStep(s, key, id, statusOk).0);
    }
  }

  lemma CutAckKeepsOnePlace(s: State, key: string, id: JsString, removed: nat)
    requires OnePlace(s)
    ensures OnePlace(CutAckStep(s, key, id, removed))
  {
    var p, t := Place(key, id), CutAckStep(s, key, id, removed);
    if p in s.unread {
      var acked := s.acked + {p};
      var dropped := set q | q in acked && q.key == key && q.id in Oldest(Excess(IdsIn(acked, key)), removed);
      AckedKeepsOnePlace(s, t, p, dropped);
    } else {
      SameFilesOnePlace(s, t);
    }
  }

  lemma PersistKeepsOnePlaceIff(s: State, key: string, id: JsString, size: nat, hold: Option<Gap>, at: nat, statusOk: bool, fault: Fault)
    requires OnePlace(s)
    ensures var t := PersistStep(s, key, id, size, hold, at, statusOk, fault).0;
            OnePlace(t) <==> (t.unread == s.unread || id !in s.persisted)
  {
    PersistWrites(s, key, id, size, hold, at, statusOk, fault);
    WriteKeepsOnePlace(s, PersistStep(s, key, id, size, hold, at, statusOk, fault).0, key, id, size);
  }

  lemma PartKeepsFiles(s: State, t: nat, part: Part)
    ensures SameFiles(s, PartStep(s, t, part)) && PartStep(s, t, part).boxes == s.boxes && PartStep(s, t, part).lost == s.lost
  {
  }

  lemma RetryWrites(s: State, t: nat, at: nat, statusOk: bool, fault: Fault)
    requires IsAt(s, t, Missing)
    ensures SameFiles(RetryWrite(s, t, at, statusOk, fault).0, RetryStep(s, t, at, statusOk, fault))
    ensures RetryWrite(s, t, at, statusOk, fault).0.held == RetryStep(s, t, at, statusOk, fault).held
  {
    Concludes(RetryWrite(s, t, at, statusOk, fault).0, RetryWrite(s, t, at, statusOk, fault).1.Persisted?, t);
  }

  lemma Concludes(u: State, landed: bool, t: nat)
    requires t in u.tries
    ensures var v := if landed then Reaches(u, t, Landed) else u.(tries := u.tries - {t}); SameFiles(u, v) && v.held == u.held
  {
  }

  lemma RetryKeepsOnePlaceIff(s: State, t: nat, at: nat, statusOk: bool, fault: Fault)
    requires OnePlace(s) && IsAt(s, t, Missing)
    ensures var u := RetryStep(s, t, at, statusOk, fault);
            OnePlace(u) <==> (u.unread == s.unread || s.tries[t].gap.id !in s.persisted)
  {
    var y, u, w := s.tries[t], RetryStep(s, t, at, statusOk, fault), RetryWrite(s, t, at, statusOk, fault).0;
    PersistKeepsOnePlaceIff(s, y.key, y.gap.id, y.gap.size, Some(y.gap), at, statusOk, fault);
    RetryWrites(s, t, at, statusOk, fault);
    SameFilesSameOnePlace(w, u);
  }

  lemma SameFilesSameOnePlace(s: State, t: State)
    requires SameFiles(s, t)
    ensures OnePlace(s) <==> OnePlace(t)
  {
    assert Everywhere(t) == Everywhere(s);
  }

  lemma MoveKeepsOnePlace(s: State, from: string, to: string, ids: seq<JsString>, clock: nat -> nat, statusOk: bool)
    requires OnePlace(s)
    ensures OnePlace(MoveStep(s, from, to, ids, clock, statusOk).0)
  {
    MoveFilesKeepsOnePlace(s, from, to, ids);
    var s1 := s.(boxes := s.boxes + {from, to}, unread := MoveFiles(s.unread, from, to, ids));
    CountLossesKeepsFiles(s1, from, Clocked(clock, |MoveOutcome(s.unread, from, to, ids).lost|), statusOk);
    SameFilesOnePlace(s.(unread := MoveFiles(s.unread, from, to, ids)), MoveStep(s, from, to, ids, clock, statusOk).0);
  }

  lemma RecordedKeepsOnePlaceIff(s: State, key: string, id: JsString, size: nat, at: nat, statusOk: bool, fault: Fault)
    requires OnePlace(s)
    ensures var t := RecordedStep(s, key, id, size, at, statusOk, fault).0;
            OnePlace(t) <==> (t.unread == s.unread || id !in s.persisted)
  {
    if OnDisk(s, key, id) {
      SameFilesOnePlace(s, WithBox(s, key));
    } else {
      PersistKeepsOnePlaceIff(s, key, id, size, None, at, statusOk, fault);
    }
  }

  lemma WritesKeepOnePlaceIff(s: State, e: Event)
    requires OnePlace(s) && WrittenId(s, e).Some?
    ensures OnePlace(After(s, e)) <==> (After(s, e).unread == s.unread || WrittenId(s, e).value !in s.persisted)
  {
    match e
    case Write(key, id, size, at, statusOk, fault) => PersistKeepsOnePlaceIff(s, key, id, size, None, at, statusOk, fault);
    case WriteGap(key, gap, at, statusOk, fault) => PersistKeepsOnePlaceIff(s, key, gap.id, gap.size, Some(gap), at, statusOk, fault);
    case WriteRecorded(key, id, size, at, statusOk, fault) => RecordedKeepsOnePlaceIff(s, key, id, size, at, statusOk, fault);
    case Retry(t, at, statusOk, fault) => RetryKeepsOnePlaceIff(s, t, at, statusOk, fault);
  }

  lemma OthersKeepOnePlace(s: State, e: Event)
    requires OnePlace(s) && WrittenId(s, e).None?
    ensures OnePlace(After(s, e))
  {
    match e
    case Retrying(t, part) =>
      PartKeepsFiles(s, t, part);
      SameFilesOnePlace(s, After(s, e));
    case Retry(_, _, _, _) =>
    case Move(from, to, ids, clock, statusOk) => MoveKeepsOnePlace(s, from, to, ids, clock, statusOk);
    case CutMove(from, to, ids) =>
      MoveFilesKeepsOnePlace(s, from, to, ids);
      SameFilesOnePlace(s.(unread := MoveFiles(s.unread, from, to, ids)), After(s, e));
    case Ack(key, id, statusOk) => AckKeepsOnePlace(s, key, id, statusOk);
    case CutAck(key, id, removed) => CutAckKeepsOnePlace(s, key, id, removed);
  }

  lemma RunStep(s: State, events: seq<Event>, k: nat)
    requires k < |events|
    ensures Run(s, events[..k + 1]) == After(Run(s, events[..k]), events[k])
  {
    assert events[..k + 1][..k] == events[..k];
  }

  /** The states of a run. */
  ghost function States(s: State, events: seq<Event>): (r: seq<State>)
    ensures |r| == |events| + 1 && forall k :: 0 <= k <= |events| ==> r[k] == Run(s, events[..k])
  {
    seq(|events| + 1, k requires 0 <= k <= |events| => Run(s, events[..k]))
  }

  lemma StepKeepsOnePlaceIff(s: State, e: Event)
    requires OnePlace(s)
    ensures OnePlace(After(s, e)) <==> LandsNew(s, e)
  {
    if WrittenId(s, e).Some? {
      WritesKeepOnePlaceIff(s, e);
    } else {
      OthersKeepOnePlace(s, e);
    }
  }

  /**
   Over any run: in every state each persisted event is unread once, or acknowledged once, or pruned,
   exactly when every write that lands, retries included, lands an id never seen before.
   */
  lemma RunKeepsOnePlaceIff(s: State, events: seq<Event>)
    requires OnePlace(s)
    ensures (forall k :: 0 <= k <= |events| ==> OnePlace(Run(s, events[..k]))) <==>
            forall i :: 0 <= i < |events| ==> LandsNew(Run(s, events[..i]), events[i])
  {
    var trace, good := States(s, events), (i: nat) => i < |events| ==> LandsNew(Run(s, events[..i]), events[i]);
    assert trace[0] == Run(s, []) by {
      assert events[..0] == [];
    }
    forall i: nat | i + 1 < |trace| && OnePlace(trace[i]) ensures OnePlace(trace[i + 1]) <==> good(i) {
      RunStep(s, events, i);
      StepKeepsOnePlaceIff(trace[i], events[i]);
    }
    ChainHoldsIff(trace, (x: State) => OnePlace(x), good);
    assert forall i :: 0 <= i < |events| ==> (good(i) <==> LandsNew(Run(s, events[..i]), events[i]));
  }

  // ---- What a write answers and records -------------------------------------------------------

  /** One file more of this size would be too many, or too much. */
  ghost predicate NoRoom(s: State, key: string, size: nat) {
    || |set p | p in s.unread && p.key == key| >= 500
    || ByteCount(s.unread, key) + size > 8_388_608
    || |s.unread| >= 5_000
  }

  /** A mailbox, or all of them together, has no room even for an empty file. */
  ghost predicate SomeFull(s: State) {
    || (exists key :: key in s.boxes && (|set p | p in s.unread && p.key == key| >= 500 || ByteCount(s.unread, key) >= 8_388_608))
    || |s.unread| >= 5_000
  }

  lemma FileCountIs(files: Files, key: string)
    ensures FileCount(files, key) == |set p | p in files && p.key == key|
  {
    assert In(files, key).Keys == set p | p in files && p.key == key;
  }

  lemma SomeFullIff(s: State)
    ensures SomeFull(s) <==> Degraded(s)
  {
    forall key ensures FileCount(s.unread, key) == |set p | p in s.unread && p.key == key| {
      FileCountIs(s.unread, key);
    }
  }

  /** Which of the four answers a write gives. */
  lemma WriteAnswers(s: State, key: string, id: JsString, size: nat, hold: Option<Gap>, at: nat, statusOk: bool, fault: Fault)
    ensures var r := PersistStep(s, key, id, size, hold, at, statusOk, fault).1;
            r == if NoRoom(s, key, size) then NotPersisted(id, Capacity, hold.Some? && statusOk)
                 else if Place(key, id) in s.unread then NotPersisted(id, if fault == BeforeLink then Unavailable else Collision, false)
                 else if fault == NoFault then Persisted(id)
                 else NotPersisted(id, Unavailable, false)
  {
    FileCountIs(s.unread, key);
  }

  /** The account of a mailbox after one loss more keeps the time of the first and takes the time of the last. */
  ghost predicate LossNoted(s: State, t: State, key: string, at: nat) {
    && key in t.lost && t.lost - {key} == s.lost - {key}
    && t.lost[key].lastAt == at
    && t.lost[key].firstAt == (if key in s.lost then s.lost[key].firstAt else at)
    && t.lost[key].count == (if key in s.lost then s.lost[key].count else 0) + 1
  }

  lemma CountedIsNoted(s: State, key: string, at: nat)
    ensures LossNoted(s, CountLoss(s, key, at, true), key, at)
  {
    var t := CountLoss(s, key, at, true);
    assert t.lost - {key} == s.lost - {key};
  }

  /** Where the status record can be written, a write that landed shows whether a mailbox is full. */
  lemma LandedShows(s: State, key: string, id: JsString, size: nat, hold: Option<Gap>, at: nat, fault: Fault)
    ensures var (t, r) := PersistStep(s, key, id, size, hold, at, true, fault);
            r.Persisted? ==> (t.degraded <==> SomeFull(t)) && t.lost == s.lost && t.held == s.held
  {
    SomeFullIff(Land(WithBox(s, key), key, id, size));
    var (t, r) := PersistStep(s, key, id, size, hold, at, true, fault);
    if r.Persisted? {
      assert t == Assessed(Land(WithBox(s, key), key, id, size), true);
    }
  }

  /** A refused one shows that something is wrong, and is held or counted. */
  lemma RefusedShows(s: State, key: string, id: JsString, size: nat, hold: Option<Gap>, at: nat, fault: Fault)
    ensures var (t, r) := PersistStep(s, key, id, size, hold, at, true, fault);
            r.NotPersisted? ==> t.degraded && if r.pendingGap then t.lost == s.lost && t.held == s.held[key := hold.value] else t.held == s.held && LossNoted(s, t, key, at)
  {
    var s1, s2 := WithBox(s, key), Land(WithBox(s, key), key, id, size);
    CountedIsNoted(s1, key, at);
    CountedIsNoted(s2, key, at);
  }

  /** Where it cannot, it stays as it is, whatever is lost. */
  lemma UnwritableShowsNothing(s: State, key: string, id: JsString, size: nat, hold: Option<Gap>, at: nat, fault: Fault)
    ensures var t := PersistStep(s, key, id, size, hold, at, false, fault).0; t.degraded == s.degraded && t.lost == s.lost && t.held == s.held
  {
  }

  /** An acknowledgement and a move show at their end whether a mailbox is full. */
  lemma AckShows(s: State, key: string, id: JsString, statusOk: bool)
    ensures var (t, r) := AckStep(s, key, id, statusOk);
            && (r.Acked? && statusOk ==> (t.degraded <==> SomeFull(t)))
            && (!r.Acked? || !statusOk ==> t.degraded == s.degraded)
            && t.lost == s.lost && t.held == s.held
  {
    SomeFullIff(PruneStep(WithBox(s, key).(unread := s.unread - {Place(key, id)}, acked := s.acked + {Place(key, id)}), key));
  }

  lemma MoveShows(s: State, from: string, to: string, ids: seq<JsString>, clock: nat -> nat, statusOk: bool)
    ensures var t := MoveStep(s, from, to, ids, clock, statusOk).0; if statusOk then t.degraded <==> SomeFull(t) else t.degraded == s.degraded && t.lost == s.lost
  {
    var m := MoveOutcome(s.unread, from, to, ids);
    var s1 := s.(boxes := s.boxes + {from, to}, unread := MoveFiles(s.unread, from, to, ids));
    var s2 := CountLosses(s1, from, Clocked(clock, |m.lost|), statusOk);
    SomeFullIff(s2);
    if !statusOk {
      UnwritableLossesAreLost(s1, from, Clocked(clock, |m.lost|));
    }
  }

  lemma {:induction false} UnwritableLossesAreLost(s: State, key: string, times: seq<nat>)
    ensures CountLosses(s, key, times, false) == s
  {
    if times != [] {
      UnwritableLossesAreLost(s, key, times[..|times| - 1]);
    }
  }

  /** A recorded event found in its mailbox, unread or handled, is answered as persisted and not written; any other is written as new. */
  lemma RecordedIsWrittenOnce(s: State, key: string, id: JsString, size: nat, at: nat, statusOk: bool, fault: Fault)
    ensures var (t, r) := RecordedStep(s, key, id, size, at, statusOk, fault);
            && (Place(key, id) in s.unread || Place(key, id) in s.acked ==> r == Persisted(id) && SameFiles(s, t) && t.lost == s.lost)
            && (Place(key, id) !in s.unread && Place(key, id) !in s.acked ==>
                  (t, r) == PersistStep(s, key, id, size, None, at, statusOk, fault))
  {
  }

  lemma PersistedIsOnDisk(s: State, key: string, id: JsString, size: nat, hold: Option<Gap>, at: nat, statusOk: bool, fault: Fault)
    ensures var (t, r) := PersistStep(s, key, id, size, hold, at, statusOk, fault); r.Persisted? ==> OnDisk(t, key, id)
  {
  }

  /** So what a recorded write persisted it persists again, at once or after its acknowledgement, without writing. */
  lemma RecordedAgainChangesNothing(s: State, key: string, id: JsString, size: nat, at: nat, statusOk: bool, fault: Fault, again: Fault)
    ensures var (t, r) := RecordedStep(s, key, id, size, at, statusOk, fault);
            && (r.Persisted? ==> OnDisk(t, key, id))
            && (r.Persisted? ==> var (u, q) := RecordedStep(t, key, id, size, at, statusOk, again); q == Persisted(id) && SameFiles(t, u) && u.lost == t.lost)
  {
    var (t, r) := RecordedStep(s, key, id, size, at, statusOk, fault);
    if !OnDisk(s, key, id) {
      PersistedIsOnDisk(s, key, id, size, None, at, statusOk, fault);
    }
    RecordedIsWrittenOnce(t, key, id, size, at, statusOk, again);
  }

  // ---- No id lands twice --------------------------------------------------------------------

  /** The id that the i-th step of a run from the empty namespace lands, if it lands one. */
  ghost function LandedId(events: seq<Event>, i: nat): Option<JsString>
    requires i < |events|
  {
    var s := Run(EMPTY, events[..i]);
    if Lands(s, events[i]) then WrittenId(s, events[i]) else None
  }

  lemma PersistPersists(s: State, key: string, id: JsString, size: nat, hold: Option<Gap>, at: nat, statusOk: bool, fault: Fault)
    ensures var t := PersistStep(s, key, id, size, hold, at, statusOk, fault).0;
            t.persisted == if t.unread != s.unread then s.persisted + {id} else s.persisted
  {
    var t := PersistStep(s, key, id, size, hold, at, statusOk, fault).0;
    PersistWrites(s, key, id, size, hold, at, statusOk, fault);
    if !SameFiles(s, t) {
      assert Place(key, id) in t.unread && Place(key, id) !in s.unread;
    }
  }

  /** What has landed is what it was, with the id of a step that lands. */
  lemma StepPersists(s: State, e: Event)
    ensures After(s, e).persisted == if Lands(s, e) then s.persisted + {WrittenId(s, e).value} else s.persisted
  {
    match e
    case Write(key, id, size, at, statusOk, fault) => PersistPersists(s, key, id, size, None, at, statusOk, fault);
    case WriteGap(key, gap, at, statusOk, fault) => PersistPersists(s, key, gap.id, gap.size, Some(gap), at, statusOk, fault);
    case WriteRecorded(key, id, size, at, statusOk, fault) =>
      if !OnDisk(s, key, id) {
        PersistPersists(s, key, id, size, None, at, statusOk, fault);
      }
    case Retrying(t, part) => PartKeepsFiles(s, t, part);
    case Retry(t, at, statusOk, fault) =>
      if IsAt(s, t, Missing) {
        var y := s.tries[t];
        PersistPersists(s, y.key, y.gap.id, y.gap.size, Some(y.gap), at, statusOk, fault);
        RetryWrites(s, t, at, statusOk, fault);
      }
    case Move(from, to, ids, clock, statusOk) =>
      var s1 := s.(boxes := s.boxes + {from, to}, unread := MoveFiles(s.unread, from, to, ids));
      CountLossesKeepsFiles(s1, from, Clocked(clock, |MoveOutcome(s.unread, from, to, ids).lost|), statusOk);
    case CutMove(_, _, _) =>
    case Ack(_, _, _) =>
    case CutAck(_, _, _) =>
  }

  lemma LandingPersists(events: seq<Event>, k: nat)
    requires k < |events|
    ensures Run(EMPTY, events[..k + 1]).persisted ==
            Run(EMPTY, events[..k]).persisted + (if LandedId(events, k).Some? then {LandedId(events, k).value} else {})
  {
    RunStep(EMPTY, events, k);
    StepPersists(Run(EMPTY, events[..k]), events[k]);
  }

  lemma {:induction false} PersistedHaveLanded(ids: seq<Option<JsString>>, sets: seq<set<JsString>>, k: nat, id: JsString)
    requires |sets| == |ids| + 1 && k < |sets| && sets[0] == {}
    requires forall i :: 0 <= i < |ids| ==> sets[i + 1] == sets[i] + (if ids[i].Some? then {ids[i].value} else {})
    ensures id in sets[k] <==> exists i :: 0 <= i < k && ids[i] == Some(id)
  {
    if k > 0 {
      PersistedHaveLanded(ids, sets, k - 1, id);
    }
  }

  /** The ids a run lands, step by step, and what has landed after each step. */
  lemma LandingsOf(events: seq<Event>) returns (ids: seq<Option<JsString>>, sets: seq<set<JsString>>)
    ensures |ids| == |events| && |sets| == |events| + 1 && sets[0] == {}
    ensures forall i :: 0 <= i < |ids| ==> ids[i] == LandedId(events, i)
    ensures forall i :: 0 <= i < |sets| ==> sets[i] == Run(EMPTY, events[..i]).persisted
    ensures forall i :: 0 <= i < |ids| ==> sets[i + 1] == sets[i] + (if ids[i].Some? then {ids[i].value} else {})
  {
    ids := seq(|events|, i requires 0 <= i < |events| => LandedId(events, i));
    sets := seq(|events| + 1, i requires 0 <= i <= |events| => Run(EMPTY, events[..i]).persisted);
    assert events[..0] == [];
    forall i | 0 <= i < |ids| ensures sets[i + 1] == sets[i] + (if ids[i].Some? then {ids[i].value} else {}) {
      LandingPersists(events, i);
    }
  }

  lemma OnePlaceIffNoneHasLanded(events: seq<Event>)
    ensures (forall k :: 0 <= k <= |events| ==> OnePlace(Run(EMPTY, events[..k]))) <==>
            forall j :: 0 <= j < |events| ==> LandedId(events, j).None? || LandedId(events, j).value !in Run(EMPTY, events[..j]).persisted
  {
    assert Everywhere(EMPTY) == {};
    RunKeepsOnePlaceIff(EMPTY, events);
    forall j | 0 <= j < |events|
      ensures LandsNew(Run(EMPTY, events[..j]), events[j]) <==>
              LandedId(events, j).None? || LandedId(events, j).value !in Run(EMPTY, events[..j]).persisted
    {
      NewIffLandedNew(events, j);
    }
  }

  /** From the empty namespace: every state of a run keeps every event in one place exactly when no id lands twice. */
  lemma OnePlaceIffNoneLandsTwice(events: seq<Event>)
    ensures (forall k :: 0 <= k <= |events| ==> OnePlace(Run(EMPTY, events[..k]))) <==>
            forall i, j :: 0 <= i < j < |events| && LandedId(events, i).Some? ==> LandedId(events, i) != LandedId(events, j)
  {
    OnePlaceIffNoneHasLanded(events);
    var ids, sets := LandingsOf(events);
    NoneTwiceIff(ids, sets);
  }

  lemma NewIffLandedNew(events: seq<Event>, j: nat)
    requires j < |events|
    ensures LandsNew(Run(EMPTY, events[..j]), events[j]) <==>
            LandedId(events, j).None? || LandedId(events, j).value !in Run(EMPTY, events[..j]).persisted
  {
  }

  lemma NoneTwiceIff(ids: seq<Option<JsString>>, sets: seq<set<JsString>>)
    requires |sets| == |ids| + 1 && sets[0] == {}
    requires forall i :: 0 <= i < |ids| ==> sets[i + 1] == sets[i] + (if ids[i].Some? then {ids[i].value} else {})
    ensures (forall j :: 0 <= j < |ids| ==> ids[j].None? || ids[j].value !in sets[j]) <==>
            forall i, j :: 0 <= i < j < |ids| && ids[i].Some? ==> ids[i] != ids[j]
  {
    forall j | 0 <= j < |ids| && ids[j].Some? ensures ids[j].value in sets[j] <==> exists i :: 0 <= i < j && ids[i] == ids[j] {
      PersistedHaveLanded(ids, sets, j, ids[j].value);
    }
  }

  // ---- Orderly runs -------------------------------------------------------------------------

  /** A mailbox has this gap held, or under retry, or about to be written back as held. */
  ghost predicate Pends(s: State, key: string, id: JsString) {
    || (key in s.held && s.held[key].id == id)
    || (exists t :: t in s.tries && Carries(s.tries[t], key, id))
  }

  predicate Carries(y: Try, key: string, id: JsString) {
    (y.key == key && y.gap.id == id) || (y.stage.Clearing? && key in y.stage.read && y.stage.read[key].id == id)
  }

  predicate IsPast(y: Try) {
    y.stage.Landed? || y.stage.Clearing?
  }

  /** This retry has landed this gap and has yet to clear it. */
  predicate ClearsSoon(s: State, t: nat, key: string, id: JsString) {
    t in s.tries && IsPast(s.tries[t]) && s.tries[t].key == key && s.tries[t].gap.id == id
  }

  /** No other retry is past its start. */
  predicate Alone(s: State, t: nat) {
    forall u :: u in s.tries && u != t ==> s.tries[u].stage == AtStart
  }

  /** A pending gap belongs to one mailbox, has one retry, and has not landed unless that retry is about to clear it. */
  ghost predicate HeldFresh(s: State) {
    && (forall a, b, id :: Pends(s, a, id) && Pends(s, b, id) ==> a == b)
    && (forall key, id :: Pends(s, key, id) && id in s.persisted ==> exists t :: ClearsSoon(s, t, key, id))
    && (forall t, u :: t in s.tries && u in s.tries && s.tries[t].key == s.tries[u].key ==> t == u)
    && (forall t :: t in s.tries && s.tries[t].stage != AtStart ==> Alone(s, t))
  }

  ghost predicate NotPending(s: State, id: JsString) {
    forall key :: !Pends(s, key, id)
  }

  /**
   Minted ids are new; retries go one after another, each to its end, with a status record that can be
   written and no fault behind the link. Anything else may come between their steps.
   */
  ghost predicate Orderly(s: State, e: Event) {
    match e
    case Write(_, id, _, _, _, _) => id !in s.persisted && NotPending(s, id)
    case WriteGap(_, gap, _, _, _) => gap.id !in s.persisted && NotPending(s, gap.id)
    case WriteRecorded(key, id, _, _, _, _) => OnDisk(s, key, id) || (id !in s.persisted && NotPending(s, id))
    case Retrying(t, Begin(key)) => forall u :: u in s.tries ==> s.tries[u].key != key
    case Retrying(t, Clear(statusOk)) => statusOk
    case Retrying(t, _) => Alone(s, t)
    case Retry(t, _, _, fault) => Alone(s, t) && fault != AfterLink
    case _ => true
  }

  lemma PersistKeepsTries(s: State, key: string, id: JsString, size: nat, hold: Option<Gap>, at: nat, statusOk: bool, fault: Fault)
    ensures PersistStep(s, key, id, size, hold, at, statusOk, fault).0.tries == s.tries
  {
  }

  lemma PersistHolds(s: State, key: string, gap: Gap, at: nat, statusOk: bool, fault: Fault)
    ensures var (t, r) := PersistStep(s, key, gap.id, gap.size, Some(gap), at, statusOk, fault);
            && (t.held == s.held || (t.held == s.held[key := gap] && t.persisted == s.persisted))
            && (t.persisted == s.persisted || t.persisted == s.persisted + {gap.id})
            && (fault != AfterLink && !r.Persisted? ==> t.persisted == s.persisted)
            && (r.Persisted? ==> t.held == s.held)
            && t.tries == s.tries
  {
    PersistKeepsTries(s, key, gap.id, gap.size, Some(gap), at, statusOk, fault);
  }

  lemma PersistKeepsHeld(s: State, key: string, id: JsString, size: nat, at: nat, statusOk: bool, fault: Fault)
    ensures var t := PersistStep(s, key, id, size, None, at, statusOk, fault).0;
            t.held == s.held && t.tries == s.tries && (t.persisted == s.persisted || t.persisted == s.persisted + {id})
  {
    PersistKeepsTries(s, key, id, size, None, at, statusOk, fault);
  }

  lemma SamePending(s: State, t: State, id: JsString)
    requires HeldFresh(s) && t.held == s.held && t.tries == s.tries && NotPending(s, id)
    requires t.persisted == s.persisted || t.persisted == s.persisted + {id}
    ensures HeldFresh(t)
  {
    forall key, x ensures Pends(t, key, x) <==> Pends(s, key, x) {
    }
    forall u, key, x ensures ClearsSoon(t, u, key, x) <==> ClearsSoon(s, u, key, x) {
    }
    forall u ensures Alone(t, u) <==> Alone(s, u) {
    }
  }

  /** One more gap held for a mailbox, replacing what was held. */
  lemma HoldsMore(s: State, t: State, key: string, gap: Gap)
    requires HeldFresh(s) && t.held == s.held[key := gap] && t.tries == s.tries && t.persisted == s.persisted
    requires Pends(s, key, gap.id) || (NotPending(s, gap.id) && gap.id !in s.persisted)
    ensures HeldFresh(t)
  {
    forall k, x ensures Pends(t, k, x) ==> Pends(s, k, x) || (k == key && x == gap.id) {
    }
    forall u, k, x ensures ClearsSoon(t, u, k, x) <==> ClearsSoon(s, u, k, x) {
    }
    forall u ensures Alone(t, u) <==> Alone(s, u) {
    }
  }

  /** A retry goes on: it pends no less than before, and what it newly reads was held. */
  lemma GoesOn(s: State, t: nat, stage: Stage)
    requires HeldFresh(s) && t in s.tries && Alone(s, t)
    requires IsPast(s.tries[t]) ==> stage.Landed? || stage.Clearing?
    requires stage.Clearing? ==> stage.read == s.held
    ensures HeldFresh(Reaches(s, t, stage))
  {
    var u := Reaches(s, t, stage);
    forall k, x ensures Pends(u, k, x) ==> Pends(s, k, x) {
      if Pends(u, k, x) && !(k in u.held && u.held[k].id == x) {
        var y :| y in u.tries && Carries(u.tries[y], k, x);
        if y != t || (u.tries[t].key == k && u.tries[t].gap.id == x) {
          assert Carries(s.tries[y], k, x);
        }
      }
    }
    forall y, k, x ensures ClearsSoon(s, y, k, x) ==> ClearsSoon(u, y, k, x) {
    }
    assert Alone(u, t);
  }

  lemma BeginIsFresh(s: State, t: nat, key: string)
    requires HeldFresh(s) && Orderly(s, Retrying(t, Begin(key)))
    ensures HeldFresh(PartStep(s, t, Begin(key)))
  {
    var u := PartStep(s, t, Begin(key));
    if t !in s.tries && key in s.held {
      assert Pends(s, key, s.held[key].id);
      forall k, x ensures Pends(u, k, x) ==> Pends(s, k, x) {
        if Pends(u, k, x) && !(k in u.held && u.held[k].id == x) {
          var y :| y in u.tries && Carries(u.tries[y], k, x);
          assert y != t ==> Carries(s.tries[y], k, x);
        }
      }
      forall y, k, x ensures ClearsSoon(s, y, k, x) ==> ClearsSoon(u, y, k, x) {
      }
      forall y | y in u.tries && u.tries[y].stage != AtStart ensures Alone(u, y) {
        assert y in s.tries && Alone(s, y);
      }
    }
  }

  lemma PendingIsNew(s: State, key: string, id: JsString)
    requires HeldFresh(s) && Pends(s, key, id) && forall z :: !ClearsSoon(s, z, key, id)
    ensures id !in s.persisted
  {
  }

  lemma ClearIsFresh(s: State, t: nat)
    requires HeldFresh(s) && IsClearing(s, t)
    ensures HeldFresh(PartStep(s, t, Clear(true)))
  {
    var u, y := PartStep(s, t, Clear(true)), s.tries[t];
    assert Alone(s, t);
    forall k, x ensures Pends(u, k, x) ==> Pends(s, k, x) && k != y.key {
      if Pends(u, k, x) {
        if k in u.held && u.held[k].id == x {
          assert Carries(y, k, x);
        } else {
          var z :| z in u.tries && Carries(u.tries[z], k, x);
          assert z in s.tries && Carries(s.tries[z], k, x) && s.tries[z].stage == AtStart;
        }
      }
    }
    forall k, x | Pends(u, k, x) ensures x !in u.persisted {
      PendingIsNew(s, k, x);
    }
    assert forall z :: z in u.tries ==> u.tries[z].stage == AtStart;
  }

  lemma MissingIsNew(s: State, t: nat)
    requires HeldFresh(s) && IsAt(s, t, Missing)
    ensures s.tries[t].gap.id !in s.persisted && Pends(s, s.tries[t].key, s.tries[t].gap.id) && Alone(s, t)
  {
    var y := s.tries[t];
    assert Carries(y, y.key, y.gap.id);
    assert Alone(s, t);
    PendingIsNew(s, y.key, y.gap.id);
  }

  /** While a retry has yet to write, nothing that pends has landed. */
  lemma NothingPastIsNew(s: State, t: nat)
    requires HeldFresh(s) && IsAt(s, t, Missing)
    ensures forall k, x :: Pends(s, k, x) ==> x !in s.persisted
  {
    MissingIsNew(s, t);
    forall k, x | Pends(s, k, x) ensures x !in s.persisted {
      PendingIsNew(s, k, x);
    }
  }

  /** A retry that gives up pends no more. */
  lemma GivesUp(s: State, t: nat)
    requires HeldFresh(s) && forall k, x :: Pends(s, k, x) ==> x !in s.persisted
    ensures HeldFresh(s.(tries := s.tries - {t}))
  {
    var u := s.(tries := s.tries - {t});
    forall k, x ensures Pends(u, k, x) ==> Pends(s, k, x) {
      if Pends(u, k, x) && !(k in u.held && u.held[k].id == x) {
        var z :| z in u.tries && Carries(u.tries[z], k, x);
        assert z in s.tries && Carries(s.tries[z], k, x);
      }
    }
    forall z | z in u.tries && u.tries[z].stage != AtStart ensures Alone(u, z) {
      assert Alone(s, z);
    }
  }

  /** A retry that lands its gap is about to clear it. */
  lemma LandingIsFresh(s: State, u: State, t: nat)
    requires HeldFresh(s) && IsAt(s, t, Missing)
    requires u.held == s.held && u.tries == s.tries[t := s.tries[t].(stage := Landed)] && u.persisted == s.persisted + {s.tries[t].gap.id}
    ensures HeldFresh(u)
  {
    var y := s.tries[t];
    MissingIsNew(s, t);
    NothingPastIsNew(s, t);
    forall k, x ensures Pends(u, k, x) ==> Pends(s, k, x) {
      if Pends(u, k, x) && !(k in u.held && u.held[k].id == x) {
        var z :| z in u.tries && Carries(u.tries[z], k, x);
        assert Carries(s.tries[z], k, x);
      }
    }
    forall k, x | Pends(u, k, x) && x in u.persisted ensures exists z :: ClearsSoon(u, z, k, x) {
      assert Pends(s, k, x) && x == y.gap.id && Pends(s, y.key, y.gap.id);
      assert ClearsSoon(u, t, k, x);
    }
    assert Alone(u, t);
  }

  lemma RetryIsFresh(s: State, t: nat, at: nat, statusOk: bool, fault: Fault)
    requires HeldFresh(s) && IsAt(s, t, Missing) && fault != AfterLink
    ensures HeldFresh(RetryStep(s, t, at, statusOk, fault))
  {
    var y := s.tries[t];
    var (u, r) := RetryWrite(s, t, at, statusOk, fault);
    PersistHolds(s, y.key, y.gap, at, statusOk, fault);
    PersistedPersists(s, y.key, y.gap, at, statusOk, fault);
    MissingIsNew(s, t);
    if r.Persisted? {
      LandingIsFresh(s, RetryStep(s, t, at, statusOk, fault), t);
    } else {
      NothingPastIsNew(s, t);
      if u.held != s.held {
        HoldsMore(s, u, y.key, y.gap);
      } else {
        SameHeld(s, u);
      }
      NothingPastIsNew(u, t);
      GivesUp(u, t);
    }
  }

  lemma PersistedPersists(s: State, key: string, gap: Gap, at: nat, statusOk: bool, fault: Fault)
    ensures var (t, r) := PersistStep(s, key, gap.id, gap.size, Some(gap), at, statusOk, fault);
            r.Persisted? ==> t.persisted == s.persisted + {gap.id}
  {
  }

  lemma SameHeld(s: State, t: State)
    requires HeldFresh(s) && t.held == s.held && t.tries == s.tries && t.persisted == s.persisted
    ensures HeldFresh(t)
  {
    forall key, x ensures Pends(t, key, x) <==> Pends(s, key, x) {
    }
    forall u, key, x ensures ClearsSoon(t, u, key, x) <==> ClearsSoon(s, u, key, x) {
    }
    forall u ensures Alone(t, u) <==> Alone(s, u) {
    }
  }

  lemma PartIsFresh(s: State, t: nat, part: Part)
    requires HeldFresh(s) && Orderly(s, Retrying(t, part))
    ensures HeldFresh(PartStep(s, t, part))
  {
    match part
    case Begin(key) => BeginIsFresh(s, t, key);
    case SeeUnread => if IsAt(s, t, AtStart) { GoesOn(s, t, PartStep(s, t, part).tries[t].stage); }
    case SeeAcked => if IsAt(s, t, NotUnread) { GoesOn(s, t, PartStep(s, t, part).tries[t].stage); }
    case ReadHeld => if IsAt(s, t, Landed) { GoesOn(s, t, Clearing(s.held)); }
    case Clear(statusOk) => if IsClearing(s, t) { ClearIsFresh(s, t); }
  }

  lemma OrderlyWrite(s: State, key: string, id: JsString, size: nat, at: nat, statusOk: bool, fault: Fault)
    requires HeldFresh(s) && NotPending(s, id)
    ensures HeldFresh(PersistStep(s, key, id, size, None, at, statusOk, fault).0)
  {
    PersistKeepsHeld(s, key, id, size, at, statusOk, fault);
    SamePending(s, PersistStep(s, key, id, size, None, at, statusOk, fault).0, id);
  }

  lemma OrderlyGap(s: State, key: string, gap: Gap, at: nat, statusOk: bool, fault: Fault)
    requires HeldFresh(s) && NotPending(s, gap.id) && gap.id !in s.persisted
    ensures HeldFresh(PersistStep(s, key, gap.id, gap.size, Some(gap), at, statusOk, fault).0)
  {
    var u := PersistStep(s, key, gap.id, gap.size, Some(gap), at, statusOk, fault).0;
    PersistHolds(s, key, gap, at, statusOk, fault);
    if u.held == s.held {
      SamePending(s, u, gap.id);
    } else {
      HoldsMore(s, u, key, gap);
    }
  }

  lemma OrderlyLandsNew(s: State, e: Event)
    requires HeldFresh(s) && Orderly(s, e)
    ensures LandsNew(s, e)
  {
    if e.Retry? && IsAt(s, e.t, Missing) {
      MissingIsNew(s, e.t);
    }
  }

  lemma OrderlyKeepsFresh(s: State, e: Event)
    requires HeldFresh(s) && Orderly(s, e) && WrittenId(s, e).Some?
    ensures HeldFresh(After(s, e))
  {
    match e
    case Write(key, id, size, at, statusOk, fault) => OrderlyWrite(s, key, id, size, at, statusOk, fault);
    case WriteGap(key, gap, at, statusOk, fault) => OrderlyGap(s, key, gap, at, statusOk, fault);
    case WriteRecorded(key, id, size, at, statusOk, fault) =>
      if OnDisk(s, key, id) {
        SameHeld(s, WithBox(s, key));
      } else {
        OrderlyWrite(s, key, id, size, at, statusOk, fault);
      }
    case Retry(t, at, statusOk, fault) => RetryIsFresh(s, t, at, statusOk, fault);
  }

  lemma MoveIsFresh(s: State, from: string, to: string, ids: seq<JsString>, clock: nat -> nat, statusOk: bool)
    requires HeldFresh(s)
    ensures HeldFresh(MoveStep(s, from, to, ids, clock, statusOk).0)
  {
    MoveKeepsHeld(s, from, to, ids, clock, statusOk);
    SameHeld(s, MoveStep(s, from, to, ids, clock, statusOk).0);
  }

  lemma AckIsFresh(s: State, key: string, id: JsString, statusOk: bool)
    requires HeldFresh(s)
    ensures HeldFresh(AckStep(s, key, id, statusOk).0)
  {
    SameHeld(s, AckStep(s, key, id, statusOk).0);
  }

  lemma CutAckIsFresh(s: State, key: string, id: JsString, removed: nat)
    requires HeldFresh(s)
    ensures HeldFresh(CutAckStep(s, key, id, removed))
  {
    SameHeld(s, CutAckStep(s, key, id, removed));
  }

  lemma OrderlyStep(s: State, e: Event)
    requires HeldFresh(s) && Orderly(s, e)
    ensures HeldFresh(After(s, e))
  {
    if WrittenId(s, e).Some? {
      OrderlyKeepsFresh(s, e);
    } else {
      match e
      case Retrying(t, part) => PartIsFresh(s, t, part);
      case Retry(_, _, _, _) =>
      case Move(from, to, ids, clock, statusOk) =>
        MoveIsFresh(s, from, to, ids, clock, statusOk);
      case CutMove(_, _, _) => SameHeld(s, After(s, e));
      case Ack(key, id, statusOk) => AckIsFresh(s, key, id, statusOk);
      case CutAck(key, id, removed) => CutAckIsFresh(s, key, id, removed);
    }
  }

  lemma MoveKeepsHeld(s: State, from: string, to: string, ids: seq<JsString>, clock: nat -> nat, statusOk: bool)
    ensures var t := MoveStep(s, from, to, ids, clock, statusOk).0; t.held == s.held && t.tries == s.tries && t.persisted == s.persisted
  {
    var s1 := s.(boxes := s.boxes + {from, to}, unread := MoveFiles(s.unread, from, to, ids));
    CountLossesKeepsFiles(s1, from, Clocked(clock, |MoveOutcome(s.unread, from, to, ids).lost|), statusOk);
  }

  /**
   From an empty namespace, an orderly run: every event that ever landed is in exactly one place, and
   a pending gap has not landed unless its retry is about to clear it.
   */
  lemma {:induction false} OrderlyRunConserves(events: seq<Event>)
    requires forall i :: 0 <= i < |events| ==> Orderly(Run(EMPTY, events[..i]), events[i])
    ensures OnePlace(Run(EMPTY, events)) && HeldFresh(Run(EMPTY, events))
    decreases |events|
  {
    if events == [] {
      assert Everywhere(EMPTY) == {};
    } else {
      var front := events[..|events| - 1];
      forall i | 0 <= i < |front| ensures Orderly(Run(EMPTY, front[..i]), front[i]) {
        assert front[..i] == events[..i];
      }
      OrderlyRunConserves(front);
      OrderlyStep(Run(EMPTY, front), events[|events| - 1]);
      OrderlyLandsNew(Run(EMPTY, front), events[|events| - 1]);
      StepKeepsOnePlaceIff(Run(EMPTY, front), events[|events| - 1]);
    }
  }

  // ---- Loss accounting ----------------------------------------------------------------------

  function LossCount(s: State, key: string): nat {
    if key in s.lost then s.lost[key].count else 0
  }

  /** Exactly one account rises, by exactly `n`. */
  ghost predicate LossesRise(s: State, t: State, key: string, n: nat) {
    && LossCount(t, key) == LossCount(s, key) + n
    && forall k :: k != key ==> LossCount(t, k) == LossCount(s, k)
  }

  ghost predicate AddsOneFile(s: State, t: State, p: Place, size: nat) {
    p !in s.unread && t.unread == s.unread[p := size] && t.acked == s.acked && t.lost == s.lost
  }

  ghost predicate CountsOneLoss(s: State, t: State, key: string) {
    t.unread == s.unread && t.acked == s.acked && LossesRise(s, t, key, 1)
  }

  /**
   With a writable status record, a run event adds exactly one file and is reported persisted, or
   adds none and raises exactly one loss count by one; the one exception is a fault that strikes
   between the committing link and the return, where both happen.
   */
  lemma WriteAddsOrCounts(s: State, key: string, id: JsString, size: nat, at: nat, fault: Fault)
    ensures var (t, r) := PersistStep(s, key, id, size, None, at, true, fault);
            var adds := AddsOneFile(s, t, Place(key, id), size) && r == Persisted(id);
            var counts := CountsOneLoss(s, t, key) && r.NotPersisted? && !r.pendingGap;
            && !(adds && counts)
            && (adds || counts <==> !(fault == AfterLink && !AtCap(WithBox(s, key), key, size) && Place(key, id) !in s.unread))
            && (!(adds || counts) ==> r.NotPersisted? && LossesRise(s, t, key, 1) && t.unread == s.unread[Place(key, id) := size])
  {
    var t := PersistStep(s, key, id, size, None, at, true, fault).0;
    assert LossCount(s, key) != LossCount(s, key) + 1;
    if AtCap(WithBox(s, key), key, size) || fault == BeforeLink || Place(key, id) in s.unread {
      assert t == CountLoss(WithBox(s, key), key, at, true);
    } else if fault == AfterLink {
      assert t == CountLoss(Land(WithBox(s, key), key, id, size), key, at, true);
    }
  }

  lemma FaultAfterLinkCountsALandedFile()
    ensures var (t, r) := PersistStep(EMPTY, "a", [], 1, None, 0, true, AfterLink);
            Place("a", []) in t.unread && r.NotPersisted? && LossCount(t, "a") == 1
  {
    assert In(EMPTY.unread, "a") == map[];
    assert FileCount(EMPTY.unread, "a") == 0 && ByteCount(EMPTY.unread, "a") == 0;
  }

  /** A refused gap is held or counted, never silently dropped, and a held gap goes only once it is on disk. */
  lemma GapIsHeldOrCounted(s: State, key: string, gap: Gap, at: nat, fault: Fault)
    ensures var (t, r) := PersistStep(s, key, gap.id, gap.size, Some(gap), at, true, fault);
            || (r.Persisted? && OnDisk(t, key, gap.id) && t.held == s.held)
            || (r.NotPersisted? && r.pendingGap && t.held == s.held[key := gap] && t.lost == s.lost && t.unread == s.unread)
            || (r.NotPersisted? && !r.pendingGap && t.held == s.held && LossesRise(s, t, key, 1))
  {
  }

  /** This step puts something else in the place of the gap held for a mailbox, or nothing. */
  ghost predicate Displaces(s: State, e: Event, key: string)
    requires key in s.held
  {
    match e
    case WriteGap(k, gap, _, statusOk, _) => k == key && gap != s.held[key] && statusOk && AtCap(WithBox(s, key), key, gap.size)
    case Retry(t, _, statusOk, _) =>
      && IsAt(s, t, Missing) && s.tries[t].key == key && s.tries[t].gap != s.held[key]
      && statusOk && AtCap(WithBox(s, key), key, s.tries[t].gap.size)
    case Retrying(t, Clear(statusOk)) =>
      && IsClearing(s, t) && statusOk
      && (s.tries[t].key == key || key !in s.tries[t].stage.read || s.tries[t].stage.read[key] != s.held[key])
    case _ => false
  }

  ghost predicate StillHeld(s: State, key: string, gap: Gap) {
    key in s.held && s.held[key] == gap
  }

  lemma PersistDisplaces(s: State, key: string, gap: Gap, at: nat, statusOk: bool, fault: Fault)
    ensures var t := PersistStep(s, key, gap.id, gap.size, Some(gap), at, statusOk, fault).0;
            t.held == if statusOk && AtCap(WithBox(s, key), key, gap.size) then s.held[key := gap] else s.held
  {
  }

  lemma RetryDisplaces(s: State, t: nat, at: nat, statusOk: bool, fault: Fault)
    requires IsAt(s, t, Missing)
    ensures var y := s.tries[t];
            RetryStep(s, t, at, statusOk, fault).held ==
            if statusOk && AtCap(WithBox(s, y.key), y.key, y.gap.size) then s.held[y.key := y.gap] else s.held
  {
    PersistDisplaces(s, s.tries[t].key, s.tries[t].gap, at, statusOk, fault);
    RetryWrites(s, t, at, statusOk, fault);
  }

  lemma PartDisplaces(s: State, t: nat, part: Part, key: string)
    requires key in s.held
    ensures StillHeld(PartStep(s, t, part), key, s.held[key]) <==> !Displaces(s, Retrying(t, part), key)
  {
  }

  /**
   A held gap stays held in every step but these: a second gap of the mailbox is refused and held,
   an older one is held again by its retry, or a clear writes back what it read before.
   */
  lemma HeldGapStaysIff(s: State, e: Event, key: string)
    requires key in s.held
    ensures StillHeld(After(s, e), key, s.held[key]) <==> !Displaces(s, e, key)
  {
    match e
    case WriteGap(k, gap, at, statusOk, fault) => PersistDisplaces(s, k, gap, at, statusOk, fault);
    case Write(k, id, size, at, statusOk, fault) => PersistKeepsHeld(s, k, id, size, at, statusOk, fault);
    case WriteRecorded(k, id, size, at, statusOk, fault) =>
      if !OnDisk(s, k, id) {
        PersistKeepsHeld(s, k, id, size, at, statusOk, fault);
      }
    case Retrying(t, part) => PartDisplaces(s, t, part, key);
    case Retry(t, at, statusOk, fault) =>
      if IsAt(s, t, Missing) {
        RetryDisplaces(s, t, at, statusOk, fault);
      }
    case Move(from, to, ids, clock, statusOk) => MoveKeepsHeld(s, from, to, ids, clock, statusOk);
    case CutMove(_, _, _) =>
    case Ack(_, _, _) =>
    case CutAck(_, _, _) =>
  }

  /** Over any run, a held gap is held throughout exactly when no step displaces it. */
  lemma HeldGapStaysOverRunIff(s: State, events: seq<Event>, key: string)
    requires key in s.held
    ensures (forall k :: 0 <= k <= |events| ==> StillHeld(Run(s, events[..k]), key, s.held[key])) <==>
            forall i :: 0 <= i < |events| ==> key in Run(s, events[..i]).held && !Displaces(Run(s, events[..i]), events[i], key)
  {
    var gap := s.held[key];
    var trace, good := States(s, events), (i: nat) => i < |events| ==> key in Run(s, events[..i]).held && !Displaces(Run(s, events[..i]), events[i], key);
    assert trace[0] == Run(s, []) by {
      assert events[..0] == [];
    }
    forall i: nat | i + 1 < |trace| && StillHeld(trace[i], key, gap) ensures StillHeld(trace[i + 1], key, gap) <==> good(i) {
      RunStep(s, events, i);
      HeldGapStaysIff(trace[i], events[i], key);
    }
    ChainHoldsIff(trace, (x: State) => StillHeld(x, key, gap), good);
    assert forall i :: 0 <= i < |events| ==> (good(i) <==> key in Run(s, events[..i]).held && !Displaces(Run(s, events[..i]), events[i], key));
  }

  // ---- Retries that land a gap twice, or drop one ---------------------------------------------

  lemma RunOfSum(s: State, a: seq<Event>, b: seq<Event>)
    ensures Run(s, a + b) == Run(Run(s, a), b)
    decreases |b|
  {
    if b == [] {
      assert a + b == a;
    } else {
      RunOfSum(s, a, b[..|b| - 1]);
      assert (a + b)[..|a + b| - 1] == a + b[..|b| - 1];
    }
  }

  lemma RunAppends(s: State, events: seq<Event>, e: Event)
    ensures Run(s, events + [e]) == After(Run(s, events), e)
  {
    assert (events + [e])[..|events|] == events;
  }

  /** A retry looks for its gap in both places. */
  function Looking(t: nat, key: string): seq<Event> {
    [Retrying(t, Begin(key))] + [Retrying(t, SeeUnread)] + [Retrying(t, SeeAcked)]
  }

  lemma LookingMisses(s: State, t: nat, key: string)
    requires t !in s.tries && key in s.held && Place(key, s.held[key].id) !in s.unread && Place(key, s.held[key].id) !in s.acked
    ensures Run(s, Looking(t, key)) == s.(tries := s.tries[t := Try(key, s.held[key], Missing)])
  {
    var a, b, c := Retrying(t, Begin(key)), Retrying(t, SeeUnread), Retrying(t, SeeAcked);
    PartsMiss(s, t, key);
    RunOfThree(s, a, b, c);
  }

  lemma RunOfThree(s: State, a: Event, b: Event, c: Event)
    ensures Run(s, [a] + [b] + [c]) == After(After(After(s, a), b), c)
  {
    assert Run(s, []) == s;
    RunAppends(s, [], a);
    assert [] + [a] == [a];
    RunAppends(s, [a], b);
    RunAppends(s, [a] + [b], c);
  }

  lemma PartsMiss(s: State, t: nat, key: string)
    requires t !in s.tries && key in s.held && Place(key, s.held[key].id) !in s.unread && Place(key, s.held[key].id) !in s.acked
    ensures PartStep(PartStep(PartStep(s, t, Begin(key)), t, SeeUnread), t, SeeAcked) == s.(tries := s.tries[t := Try(key, s.held[key], Missing)])
  {
    var s1 := PartStep(s, t, Begin(key));
    assert s1 == s.(tries := s.tries[t := Try(key, s.held[key], AtStart)]);
    var s2 := PartStep(s1, t, SeeUnread);
    assert s2 == s.(tries := s.tries[t := Try(key, s.held[key], NotUnread)]);
  }

  lemma PersistLands(s: State, key: string, gap: Gap, statusOk: bool, fault: Fault)
    requires fault != BeforeLink && Place(key, gap.id) !in s.unread && !AtCap(s, key, gap.size)
    ensures var (u, r) := PersistStep(s, key, gap.id, gap.size, Some(gap), 0, statusOk, fault);
            && u.unread == s.unread[Place(key, gap.id) := gap.size] && u.held == s.held && u.acked == s.acked
            && (r.Persisted? <==> fault == NoFault)
  {
    assert AtCap(WithBox(s, key), key, gap.size) <==> AtCap(s, key, gap.size);
  }

  lemma ConcludesAs(u: State, landed: bool, t: nat)
    requires t in u.tries
    ensures (if landed then Reaches(u, t, Landed) else u.(tries := u.tries - {t})).tries ==
            if landed then u.tries[t := u.tries[t].(stage := Landed)] else u.tries - {t}
  {
  }

  /** With room, a retry that found its gap nowhere writes it; with a fault behind the link it does not know. */
  lemma RetryLands(s: State, t: nat, statusOk: bool, fault: Fault)
    requires IsAt(s, t, Missing) && fault != BeforeLink && Place(s.tries[t].key, s.tries[t].gap.id) !in s.unread
    requires !AtCap(s, s.tries[t].key, s.tries[t].gap.size)
    ensures var u, y := After(s, Retry(t, 0, statusOk, fault)), s.tries[t];
            && u.unread == s.unread[Place(y.key, y.gap.id) := y.gap.size] && u.held == s.held && u.acked == s.acked
            && u.tries == if fault == NoFault then s.tries[t := y.(stage := Landed)] else s.tries - {t}
  {
    PersistLands(s, s.tries[t].key, s.tries[t].gap, statusOk, fault);
    var (u, r) := RetryWrite(s, t, 0, statusOk, fault);
    RetryWrites(s, t, 0, statusOk, fault);
    ConcludesAs(u, r.Persisted?, t);
  }

  /** One mailbox's only unread file moves to another. */
  lemma OneMoves(s: State, from: string, to: string, id: JsString, size: nat)
    requires from != to && s.unread == map[Place(from, id) := size]
    ensures var u := After(s, Move(from, to, [id], n => 0, true));
            u.unread == map[Place(to, id) := size] && u.held == s.held && u.acked == s.acked && u.tries == s.tries
  {
    MoveUnread(s, from, to, [id], n => 0, true);
    MoveKeepsHeld(s, from, to, [id], n => 0, true);
    assert [id][..0] == [];
    assert MoveFiles(s.unread, from, to, [id]) == MoveFile(MoveFiles(s.unread, from, to, []), from, to, id);
  }

  lemma ElsewhereHasRoom(s: State, key: string, to: string, id: JsString, n: nat, size: nat)
    requires key != to && s.unread == map[Place(to, id) := n] && size <= MAX_BYTES
    ensures !AtCap(s, key, size) && Place(key, id) !in s.unread
  {
    assert In(s.unread, key) == map[];
  }

  lemma EmptyHasRoom(s: State, key: string, size: nat)
    requires s.unread == map[] && size <= MAX_BYTES
    ensures !AtCap(s, key, size)
  {
    assert In(s.unread, key) == map[];
  }

  /** The one gap is unread in two mailboxes. */
  lemma TwiceIsNotOnePlace(s: State, key: string, to: string, id: JsString)
    requires key != to && Place(key, id) in s.unread && Place(to, id) in s.unread
    ensures !OnePlace(s)
  {
    assert Place(key, id) in Everywhere(s) && Place(to, id) in Everywhere(s);
  }

  /** A gap is held with nothing unread and nothing under way. */
  ghost predicate HoldsOne(s: State, key: string, gap: Gap) {
    && s.unread == map[] && s.tries == map[] && s.held == map[key := gap] && gap.size <= MAX_BYTES
    && Place(key, gap.id) !in s.acked
  }

  /** A fault behind the link, a move, and the next retry. */
  function FaultedRetry(key: string, to: string, id: JsString): seq<Event> {
    Looking(0, key) + [Retry(0, 0, true, AfterLink)] + [Move(key, to, [id], n => 0, true)] + Looking(1, key) + [Retry(1, 0, true, NoFault)]
  }

  /** The input: a retry whose link landed before a fault leaves the gap held; the file moves on, and the next retry writes it again. */
  lemma FaultedRetryLandsTwice(s: State, key: string, to: string, gap: Gap)
    requires HoldsOne(s, key, gap) && key != to
    ensures var u := Run(s, FaultedRetry(key, to, gap.id)); Place(key, gap.id) in u.unread && Place(to, gap.id) in u.unread && !OnePlace(u)
  {
    var r, m, q := Retry(0, 0, true, AfterLink), Move(key, to, [gap.id], n => 0, true), Retry(1, 0, true, NoFault);
    LookingMisses(s, 0, key);
    var s1 := Run(s, Looking(0, key));
    EmptyHasRoom(s1, key, gap.size);
    RetryLands(s1, 0, true, AfterLink);
    RunAppends(s, Looking(0, key), r);
    var s2 := After(s1, r);
    assert s2.unread == map[Place(key, gap.id) := gap.size];
    OneMoves(s2, key, to, gap.id, gap.size);
    RunAppends(s, Looking(0, key) + [r], m);
    var s3 := After(s2, m);
    ElsewhereHasRoom(s3, key, to, gap.id, gap.size, gap.size);
    LookingMisses(s3, 1, key);
    RunOfSum(s, Looking(0, key) + [r] + [m], Looking(1, key));
    var s4 := Run(s3, Looking(1, key));
    ElsewhereHasRoom(s4, key, to, gap.id, gap.size, gap.size);
    RetryLands(s4, 1, true, NoFault);
    RunAppends(s, Looking(0, key) + [r] + [m] + Looking(1, key), q);
    TwiceIsNotOnePlace(After(s4, q), key, to, gap.id);
  }

  /** Two retries of one gap look before either writes; the file of the first moves on before the second writes. */
  function OverlappingRetries(key: string, to: string, id: JsString): seq<Event> {
    Looking(0, key) + Looking(1, key) + [Retry(0, 0, true, NoFault)] + [Move(key, to, [id], n => 0, true)] + [Retry(1, 0, true, NoFault)]
  }

  /** The input without any fault. */
  lemma OverlappingRetriesLandTwice(s: State, key: string, to: string, gap: Gap)
    requires HoldsOne(s, key, gap) && key != to
    ensures var u := Run(s, OverlappingRetries(key, to, gap.id)); Place(key, gap.id) in u.unread && Place(to, gap.id) in u.unread && !OnePlace(u)
  {
    var r, m, q := Retry(0, 0, true, NoFault), Move(key, to, [gap.id], n => 0, true), Retry(1, 0, true, NoFault);
    LookingMisses(s, 0, key);
    var s1 := Run(s, Looking(0, key));
    LookingMisses(s1, 1, key);
    RunOfSum(s, Looking(0, key), Looking(1, key));
    var s2 := Run(s1, Looking(1, key));
    EmptyHasRoom(s2, key, gap.size);
    RetryLands(s2, 0, true, NoFault);
    RunAppends(s, Looking(0, key) + Looking(1, key), r);
    var s3 := After(s2, r);
    assert s3.unread == map[Place(key, gap.id) := gap.size];
    OneMoves(s3, key, to, gap.id, gap.size);
    RunAppends(s, Looking(0, key) + Looking(1, key) + [r], m);
    var s4 := After(s3, m);
    ElsewhereHasRoom(s4, key, to, gap.id, gap.size, gap.size);
    RetryLands(s4, 1, true, NoFault);
    RunAppends(s, Looking(0, key) + Looking(1, key) + [r] + [m], q);
    TwiceIsNotOnePlace(After(s4, q), key, to, gap.id);
  }

  /**
   The input: between a retry's landing and its clear a second gap of the mailbox is refused and held;
   the clear drops it, and it is neither held nor counted nor on disk.
   */
  lemma ClearDropsALaterGap(s: State, t: nat, key: string, gap: Gap)
    requires IsAt(s, t, Landed) && s.tries[t].key == key && AtCap(WithBox(s, key), key, gap.size) && Place(key, gap.id) !in s.unread
    ensures StillHeld(Run(s, [WriteGap(key, gap, 0, true, NoFault)]), key, gap)
    ensures var u := Run(s, [WriteGap(key, gap, 0, true, NoFault)] + [Retrying(t, ReadHeld)] + [Retrying(t, Clear(true))]);
            key !in u.held && u.lost == s.lost && u.unread == s.unread
  {
    var w, r, c := WriteGap(key, gap, 0, true, NoFault), Retrying(t, ReadHeld), Retrying(t, Clear(true));
    RunOfThree(s, w, r, c);
    assert Run(s, []) == s;
    RunAppends(s, [], w);
    assert [] + [w] == [w];
    var s1 := After(s, w);
    assert s1 == Hold(WithBox(s, key), key, gap);
    assert IsAt(s1, t, Landed);
    assert IsClearing(After(s1, r), t);
  }

  /** A run that holds a gap: one event fills the mailbox, the gap is refused, and the event is handled. */
  function Holding(key: string): seq<Event> {
    [Write(key, [0], MAX_BYTES, 0, true, NoFault)] + [WriteGap(key, Gap([1], 1), 0, true, NoFault)] + [Ack(key, [0], true)]
  }

  lemma HoldingIsReached(key: string)
    ensures HoldsOne(Run(EMPTY, Holding(key)), key, Gap([1], 1))
  {
    var w, g, k := Write(key, [0], MAX_BYTES, 0, true, NoFault), WriteGap(key, Gap([1], 1), 0, true, NoFault), Ack(key, [0], true);
    RunOfThree(EMPTY, w, g, k);
    EmptyHasRoom(WithBox(EMPTY, key), key, MAX_BYTES);
    var s1 := After(EMPTY, w);
    assert s1.unread == map[Place(key, [0]) := MAX_BYTES] && s1.held == map[] && s1.tries == map[] && s1.acked == {};
    FullIsAtCap(WithBox(s1, key), key, [0]);
    var s2 := After(s1, g);
    assert s2.held == map[key := Gap([1], 1)] && s2.unread == s1.unread && s2.tries == map[] && s2.acked == {};
    AckedAlone(s2, key, [0]);
  }

  lemma FullIsAtCap(s: State, key: string, id: JsString)
    requires s.unread == map[Place(key, id) := MAX_BYTES]
    ensures AtCap(s, key, 1)
  {
    assert In(s.unread, key) == s.unread;
    TotalRemove(s.unread, Place(key, id));
    assert s.unread - {Place(key, id)} == map[];
  }

  lemma AckedAlone(s: State, key: string, id: JsString)
    requires Place(key, id) in s.unread && s.unread.Keys == {Place(key, id)} && s.acked == {}
    ensures var u := After(s, Ack(key, id, true)); u.unread == map[] && u.acked <= {Place(key, id)} && u.held == s.held && u.tries == s.tries
  {
  }

  /** Both inputs from the empty namespace. */
  lemma GapsCanLandTwice(key: string, to: string)
    requires key != to
    ensures !OnePlace(Run(EMPTY, Holding(key) + FaultedRetry(key, to, [1])))
    ensures !OnePlace(Run(EMPTY, Holding(key) + OverlappingRetries(key, to, [1])))
  {
    HoldingIsReached(key);
    RunOfSum(EMPTY, Holding(key), FaultedRetry(key, to, [1]));
    RunOfSum(EMPTY, Holding(key), OverlappingRetries(key, to, [1]));
    FaultedRetryLandsTwice(Run(EMPTY, Holding(key)), key, to, Gap([1], 1));
    OverlappingRetriesLandTwice(Run(EMPTY, Holding(key)), key, to, Gap([1], 1));
  }

  /** From the empty namespace: the second gap is neither held, counted nor on disk. */
  lemma GapsCanBeDropped(key: string)
    ensures var landed := Run(EMPTY, Holding(key) + Looking(0, key) + [Retry(0, 0, true, NoFault)]);
            var gap := Gap([2], MAX_BYTES);
            var refused := Run(landed, [WriteGap(key, gap, 0, true, NoFault)]);
            var u := Run(landed, [WriteGap(key, gap, 0, true, NoFault)] + [Retrying(0, ReadHeld)] + [Retrying(0, Clear(true))]);
            && StillHeld(refused, key, gap)
            && key !in u.held && u.lost == landed.lost && u.unread == landed.unread && Place(key, gap.id) !in u.unread
  {
    HoldingIsReached(key);
    var s := Run(EMPTY, Holding(key));
    LookingMisses(s, 0, key);
    RunOfSum(EMPTY, Holding(key), Looking(0, key));
    var s1 := Run(s, Looking(0, key));
    EmptyHasRoom(s1, key, 1);
    RetryLands(s1, 0, true, NoFault);
    RunAppends(EMPTY, Holding(key) + Looking(0, key), Retry(0, 0, true, NoFault));
    var s2 := After(s1, Retry(0, 0, true, NoFault));
    assert s2.unread == map[Place(key, [1]) := 1];
    NearlyFullIsAtCap(WithBox(s2, key), key, [1]);
    ClearDropsALaterGap(s2, 0, key, Gap([2], MAX_BYTES));
  }

  lemma NearlyFullIsAtCap(s: State, key: string, id: JsString)
    requires s.unread == map[Place(key, id) := 1]
    ensures AtCap(s, key, MAX_BYTES)
  {
    assert In(s.unread, key) == s.unread;
    TotalRemove(s.unread, Place(key, id));
    assert s.unread - {Place(key, id)} == map[];
  }

  // ---- Move plans ---------------------------------------------------------------------------

  /** The files after a plan, said at once: every planned file that was in the source is in the destination. */
  ghost function MovedTo(files: Files, from: string, to: string, ids: set<JsString>): Files {
    map p | p in files.Keys + (set id | id in ids && Place(from, id) in files :: Place(to, id))
            && !(p.key == from && p.id in ids)
         :: if p.key == to && p.id in ids && Place(from, p.id) in files then files[Place(from, p.id)] else files[p]
  }

  function SetOf(ids: seq<JsString>): set<JsString> {
    set id | id in ids
  }

  lemma MoveFileIsMovedTo(files: Files, from: string, to: string, done: set<JsString>, id: JsString)
    requires from != to
    ensures MoveFile(MovedTo(files, from, to, done), from, to, id) == MovedTo(files, from, to, done + {id})
  {
    var a := MoveFile(MovedTo(files, from, to, done), from, to, id);
    var b := MovedTo(files, from, to, done + {id});
    forall p ensures p in a <==> p in b {
    }
    forall p | p in a ensures a[p] == b[p] {
    }
  }

  lemma {:induction false} MoveFilesIsMovedTo(files: Files, from: string, to: string, ids: seq<JsString>)
    requires from != to
    ensures MoveFiles(files, from, to, ids) == MovedTo(files, from, to, SetOf(ids))
  {
    if ids != [] {
      var front := ids[..|ids| - 1];
      MoveFilesIsMovedTo(files, from, to, front);
      MoveFileIsMovedTo(files, from, to, SetOf(front), ids[|ids| - 1]);
      assert ids == front + [ids[|ids| - 1]];
      assert SetOf(ids) == SetOf(front) + {ids[|ids| - 1]};
    }
  }

  lemma InMovedTo(files: Files, from: string, to: string, done: set<JsString>, id: JsString)
    requires from != to
    ensures Place(from, id) in MovedTo(files, from, to, done) <==> Place(from, id) in files && id !in done
    ensures Place(to, id) in MovedTo(files, from, to, done) <==> Place(to, id) in files || (Place(from, id) in files && id in done)
  {
  }

  /** The outcome lists divide the plan; what was in the source has moved, what was on neither side is lost. */
  ghost predicate Splits(files: Files, from: string, to: string, ids: seq<JsString>, m: Moves) {
    && multiset(ids) == multiset(m.moved) + multiset(m.already) + multiset(m.lost)
    && (forall id :: id in m.moved <==> id in ids && Place(from, id) in files)
    && (forall id :: id in m.lost <==> id in ids && Place(from, id) !in files && Place(to, id) !in files)
    && (forall id :: id in m.already ==> id in ids && (Place(to, id) in files || Place(from, id) in files))
  }

  lemma SplitsMore(files: Files, from: string, to: string, front: seq<JsString>, id: JsString, m: Moves, n: Moves)
    requires Splits(files, from, to, front, m)
    requires n == if Place(from, id) in files && id !in front then m.(moved := m.moved + [id])
                  else if Place(to, id) in files || Place(from, id) in files then m.(already := m.already + [id])
                  else m.(lost := m.lost + [id])
    ensures Splits(files, from, to, front + [id], n)
  {
    assert forall i :: i in front + [id] <==> i in front || i == id;
    assert forall i :: i in n.moved <==> i in m.moved || (n.moved != m.moved && i == id);
    assert forall i :: i in n.already <==> i in m.already || (n.already != m.already && i == id);
    assert forall i :: i in n.lost <==> i in m.lost || (n.lost != m.lost && i == id);
  }

  lemma {:induction false} MovePlanSplits(files: Files, from: string, to: string, ids: seq<JsString>)
    requires from != to
    ensures Splits(files, from, to, ids, MoveOutcome(files, from, to, ids))
  {
    if ids != [] {
      var front, id := ids[..|ids| - 1], ids[|ids| - 1];
      MovePlanSplits(files, from, to, front);
      MoveFilesIsMovedTo(files, from, to, front);
      assert ids == front + [id];
      InMovedTo(files, from, to, SetOf(front), id);
      SplitsMore(files, from, to, front, id, MoveOutcome(files, from, to, front), MoveOutcome(files, from, to, ids));
    }
  }

  lemma {:induction false} LostAreUnaffected(files: Files, from: string, to: string, done: set<JsString>, ids: seq<JsString>)
    requires from != to
    ensures MoveOutcome(MovedTo(files, from, to, done), from, to, ids).lost == MoveOutcome(files, from, to, ids).lost
  {
    if ids != [] {
      var front, id := ids[..|ids| - 1], ids[|ids| - 1];
      var g := MovedTo(files, from, to, done);
      LostAreUnaffected(files, from, to, done, front);
      MoveFilesIsMovedTo(files, from, to, front);
      MoveFilesIsMovedTo(g, from, to, front);
    }
  }

  /**
   A plan cut short after any number of its renames and replayed in full ends with the files, and
   reports the losses, of the plan run once.
   */
  lemma ReplayedPlanEndsTheSame(files: Files, from: string, to: string, ids: seq<JsString>, n: nat)
    requires from != to && n <= |ids|
    ensures var cut := MoveFiles(files, from, to, ids[..n]);
            && MoveFiles(cut, from, to, ids) == MoveFiles(files, from, to, ids)
            && MoveOutcome(cut, from, to, ids).lost == MoveOutcome(files, from, to, ids).lost
  {
    MoveFilesIsMovedTo(files, from, to, ids[..n]);
    var cut := MoveFiles(files, from, to, ids[..n]);
    MoveFilesIsMovedTo(cut, from, to, ids);
    MoveFilesIsMovedTo(files, from, to, ids);
    LostAreUnaffected(files, from, to, SetOf(ids[..n]), ids);
    assert SetOf(ids[..n]) <= SetOf(ids);
    MovedTwice(files, from, to, SetOf(ids[..n]), SetOf(ids));
  }

  lemma MovedTwice(files: Files, from: string, to: string, a: set<JsString>, b: set<JsString>)
    requires from != to && a <= b
    ensures MovedTo(MovedTo(files, from, to, a), from, to, b) == MovedTo(files, from, to, b)
  {
    var l := MovedTo(MovedTo(files, from, to, a), from, to, b);
    var r := MovedTo(files, from, to, b);
    forall p ensures p in l <==> p in r {
    }
    forall p | p in l ensures l[p] == r[p] {
    }
  }

  lemma {:induction false} CountLossesCounts(s: State, key: string, times: seq<nat>)
    ensures LossesRise(s, CountLosses(s, key, times, true), key, |times|)
  {
    if times != [] {
      CountLossesCounts(s, key, times[..|times| - 1]);
    }
  }

  /** A completed move loses nothing silently: the source's account rises by exactly the files found on neither side. */
  lemma MoveCountsExactlyTheLost(s: State, from: string, to: string, ids: seq<JsString>, clock: nat -> nat)
    requires from != to
    ensures var (t, m) := MoveStep(s, from, to, ids, clock, true);
            && t.unread == MovedTo(s.unread, from, to, SetOf(ids))
            && t.acked == s.acked
            && LossesRise(s, t, from, |m.lost|)
            && Splits(s.unread, from, to, ids, m)
  {
    var m := MoveOutcome(s.unread, from, to, ids);
    var s1 := s.(boxes := s.boxes + {from, to}, unread := MoveFiles(s.unread, from, to, ids));
    var times := Clocked(clock, |m.lost|);
    MovePlanSplits(s.unread, from, to, ids);
    MoveFilesIsMovedTo(s.unread, from, to, ids);
    CountLossesCounts(s1, from, times);
    CountLossesKeepsAcked(s1, from, times, true);
    MoveRises(s, s1, CountLosses(s1, from, times, true), MoveStep(s, from, to, ids, clock, true).0, from, |m.lost|);
  }

  lemma MoveRises(s: State, s1: State, s2: State, t: State, key: string, n: nat)
    requires s1.lost == s.lost && t.lost == s2.lost && LossesRise(s1, s2, key, n)
    ensures LossesRise(s, t, key, n)
  {
    assert forall k :: LossCount(s1, k) == LossCount(s, k) && LossCount(t, k) == LossCount(s2, k);
  }

  lemma CountLossesKeepsAcked(s: State, key: string, times: seq<nat>, statusOk: bool)
    ensures CountLosses(s, key, times, statusOk).unread == s.unread && CountLosses(s, key, times, statusOk).acked == s.acked
  {
  }

  // ---- Caps ---------------------------------------------------------------------------------

  ghost predicate Over(files: Files, key: string) {
    FileCount(files, key) > MAX_FILES || ByteCount(files, key) > MAX_BYTES
  }

  lemma {:induction false} TotalOfSubset(a: Files, b: Files)
    requires forall p :: p in a ==> p in b && a[p] == b[p]
    ensures Total(a) <= Total(b) && |a| <= |b|
    decreases |a|
  {
    if a != map[] {
      var p :| p in a;
      TotalRemove(a, p);
      TotalRemove(b, p);
      TotalOfSubset(a - {p}, b - {p});
      assert |a - {p}| == |a| - 1 && |b - {p}| == |b| - 1;
    } else {
      assert |a| == 0;
    }
  }

  /** Nothing new under a key means no cap newly exceeded there. */
  lemma FewerIsNotOver(a: Files, b: Files, key: string)
    requires forall p :: p in a && p.key == key ==> p in b && a[p] == b[p]
    ensures Over(a, key) ==> Over(b, key)
    ensures FileCount(a, key) <= FileCount(b, key) && ByteCount(a, key) <= ByteCount(b, key)
  {
    TotalOfSubset(In(a, key), In(b, key));
  }

  lemma LandCounts(files: Files, key: string, id: JsString, size: nat)
    requires Place(key, id) !in files
    ensures var g := files[Place(key, id) := size];
            FileCount(g, key) == FileCount(files, key) + 1 && ByteCount(g, key) == ByteCount(files, key) + size && |g| == |files| + 1
  {
    var g := files[Place(key, id) := size];
    var p := Place(key, id);
    assert In(g, key) == In(files, key)[p := size];
    assert In(g, key) - {p} == In(files, key);
    TotalRemove(In(g, key), p);
    assert |In(g, key)| == |In(files, key)| + 1;
  }

  /** An admitted write stays inside every cap; a refused one changes no file. */
  lemma WriteRespectsCaps(s: State, key: string, id: JsString, size: nat, hold: Option<Gap>, at: nat, statusOk: bool, fault: Fault)
    ensures var t := PersistStep(s, key, id, size, hold, at, statusOk, fault).0;
            if t.unread == s.unread then true
            else !Over(t.unread, key) && |t.unread| <= GLOBAL_MAX_FILES && t.unread == s.unread[Place(key, id) := size] && Place(key, id) !in s.unread
    ensures Over(s.unread, key) ==> PersistStep(s, key, id, size, hold, at, statusOk, fault).0.unread == s.unread
  {
    if Place(key, id) !in s.unread {
      LandCounts(s.unread, key, id, size);
    }
  }

  predicate MovesInto(e: Event, key: string) {
    (e.Move? || e.CutMove?) && e.to == key
  }

  lemma MovesLeaveOthersNotOver(files: Files, from: string, to: string, ids: seq<JsString>, key: string)
    requires from != to && key != to
    ensures Over(MoveFiles(files, from, to, ids), key) ==> Over(files, key)
  {
    MoveFilesIsMovedTo(files, from, to, ids);
    FewerIsNotOver(MoveFiles(files, from, to, ids), files, key);
  }

  lemma WriteOnlyOver(s: State, t: State, k: string, id: JsString, size: nat, key: string)
    requires t.unread == s.unread || (!Over(t.unread, k) && t.unread == s.unread[Place(k, id) := size])
    ensures Over(t.unread, key) ==> Over(s.unread, key)
  {
    if key != k && t.unread != s.unread {
      FewerIsNotOver(t.unread, s.unread, key);
    }
  }

  lemma AckOnlyRemoves(s: State, key: string, id: JsString, statusOk: bool)
    ensures forall p :: p in AckStep(s, key, id, statusOk).0.unread ==> p in s.unread && AckStep(s, key, id, statusOk).0.unread[p] == s.unread[p]
  {
  }

  predicate SoundMove(e: Event) {
    e.Move? || e.CutMove? ==> e.from != e.to
  }

  /** Only a move into a mailbox can put it over a cap. */
  lemma OnlyMovesExceedCaps(s: State, e: Event, key: string)
    requires SoundMove(e) && !Over(s.unread, key) && !MovesInto(e, key)
    ensures !Over(After(s, e).unread, key)
  {
    match e
    case Write(k, id, size, at, statusOk, fault) =>
      WriteRespectsCaps(s, k, id, size, None, at, statusOk, fault);
      WriteOnlyOver(s, After(s, e), k, id, size, key);
    case WriteGap(k, gap, at, statusOk, fault) =>
      WriteRespectsCaps(s, k, gap.id, gap.size, Some(gap), at, statusOk, fault);
      WriteOnlyOver(s, After(s, e), k, gap.id, gap.size, key);
    case WriteRecorded(k, id, size, at, statusOk, fault) =>
      WriteRespectsCaps(s, k, id, size, None, at, statusOk, fault);
      WriteOnlyOver(s, After(s, e), k, id, size, key);
    case Retrying(t, part) => PartKeepsFiles(s, t, part);
    case Retry(t, at, statusOk, fault) =>
      if IsAt(s, t, Missing) {
        var y := s.tries[t];
        RetryWrites(s, t, at, statusOk, fault);
        WriteRespectsCaps(s, y.key, y.gap.id, y.gap.size, Some(y.gap), at, statusOk, fault);
        WriteOnlyOver(s, After(s, e), y.key, y.gap.id, y.gap.size, key);
      }
    case Move(from, to, ids, clock, statusOk) =>
      MoveUnread(s, from, to, ids, clock, statusOk);
      MovesLeaveOthersNotOver(s.unread, from, to, ids, key);
    case CutMove(from, to, ids) => MovesLeaveOthersNotOver(s.unread, from, to, ids, key);
    case Ack(k, id, statusOk) =>
      AckOnlyRemoves(s, k, id, statusOk);
      FewerIsNotOver(After(s, e).unread, s.unread, key);
    case CutAck(k, id, removed) => FewerIsNotOver(After(s, e).unread, s.unread, key);
  }

  lemma MoveUnread(s: State, from: string, to: string, ids: seq<JsString>, clock: nat -> nat, statusOk: bool)
    ensures MoveStep(s, from, to, ids, clock, statusOk).0.unread == MoveFiles(s.unread, from, to, ids)
    ensures MoveStep(s, from, to, ids, clock, statusOk).0.acked == s.acked
  {
    var s1 := s.(boxes := s.boxes + {from, to}, unread := MoveFiles(s.unread, from, to, ids));
    CountLossesKeepsAcked(s1, from, Clocked(clock, |MoveOutcome(s.unread, from, to, ids).lost|), statusOk);
  }

  predicate WritesTo(s: State, e: Event, key: string) {
    match e
    case Write(k, _, _, _, _, _) => k == key
    case WriteGap(k, _, _, _, _) => k == key
    case WriteRecorded(k, _, _, _, _, _) => k == key
    case Retry(t, _, _, _) => t in s.tries && s.tries[t].key == key
    case _ => false
  }

  /** While a mailbox is over a cap, no write lands in it. */
  lemma NoWriteLandsWhileOver(s: State, e: Event, key: string)
    requires Over(s.unread, key) && WritesTo(s, e, key)
    ensures After(s, e).unread == s.unread
  {
    match e
    case Write(k, id, size, at, statusOk, fault) => WriteRespectsCaps(s, k, id, size, None, at, statusOk, fault);
    case WriteGap(k, gap, at, statusOk, fault) => WriteRespectsCaps(s, k, gap.id, gap.size, Some(gap), at, statusOk, fault);
    case WriteRecorded(k, id, size, at, statusOk, fault) => WriteRespectsCaps(s, k, id, size, None, at, statusOk, fault);
    case Retry(t, at, statusOk, fault) =>
      if IsAt(s, t, Missing) {
        var y := s.tries[t];
        RetryWrites(s, t, at, statusOk, fault);
        WriteRespectsCaps(s, y.key, y.gap.id, y.gap.size, Some(y.gap), at, statusOk, fault);
      }
  }

  /**
   A mailbox is over a cap only because a move put it there, and it has stayed over ever since, so
   by the lemma above no write has landed in it since.
   */
  lemma {:induction false} OverBecauseOfAMove(s: State, events: seq<Event>, key: string)
    requires !Over(s.unread, key) && Over(Run(s, events).unread, key)
    requires forall i :: 0 <= i < |events| ==> SoundMove(events[i])
    ensures exists i :: 0 <= i < |events| && MovesInto(events[i], key) && OverSince(s, events, key, i)
    decreases |events|
  {
    var front := events[..|events| - 1];
    if Over(Run(s, front).unread, key) {
      OverBecauseOfAMove(s, front, key);
      var i :| 0 <= i < |front| && MovesInto(front[i], key) && OverSince(s, front, key, i);
      assert events[i] == front[i];
      StillOverSince(s, events, key, i);
    } else {
      PushedOver(s, events, key);
    }
  }

  lemma PushedOver(s: State, events: seq<Event>, key: string)
    requires events != [] && SoundMove(events[|events| - 1])
    requires !Over(Run(s, events[..|events| - 1]).unread, key) && Over(Run(s, events).unread, key)
    ensures MovesInto(events[|events| - 1], key) && OverSince(s, events, key, |events| - 1)
  {
    if !MovesInto(events[|events| - 1], key) {
      OnlyMovesExceedCaps(Run(s, events[..|events| - 1]), events[|events| - 1], key);
    }
    assert events[..|events|] == events;
  }

  /** Not over before event `i`, over after it and ever since. */
  ghost predicate OverSince(s: State, events: seq<Event>, key: string, i: nat)
    requires i < |events|
  {
    && !Over(Run(s, events[..i]).unread, key)
    && forall n :: i < n <= |events| ==> Over(Run(s, events[..n]).unread, key)
  }

  lemma StillOverSince(s: State, events: seq<Event>, key: string, i: nat)
    requires i < |events| - 1 && OverSince(s, events[..|events| - 1], key, i) && Over(Run(s, events).unread, key)
    ensures OverSince(s, events, key, i)
  {
    var front := events[..|events| - 1];
    forall n | i < n <= |events| ensures Over(Run(s, events[..n]).unread, key) {
      if n < |events| {
        assert events[..n] == front[..n];
      } else {
        assert events[..n] == events;
      }
    }
    assert events[..i] == front[..i];
  }

  lemma {:induction false} MovesNeverAddFiles(files: Files, from: string, to: string, ids: seq<JsString>)
    ensures |MoveFiles(files, from, to, ids)| <= |files|
  {
    if ids != [] {
      MovesNeverAddFiles(files, from, to, ids[..|ids| - 1]);
      var f := MoveFiles(files, from, to, ids[..|ids| - 1]);
      var p, q := Place(from, ids[|ids| - 1]), Place(to, ids[|ids| - 1]);
      if p in f {
        assert |f - {p}| == |f| - 1;
        assert (f - {p})[q := f[p]].Keys == (f - {p}).Keys + {q};
      }
    }
  }

  lemma RetryWithinGlobal(s: State, t: nat, at: nat, statusOk: bool, fault: Fault)
    requires |s.unread| <= GLOBAL_MAX_FILES && IsAt(s, t, Missing)
    ensures |RetryStep(s, t, at, statusOk, fault).unread| <= GLOBAL_MAX_FILES
  {
    var y := s.tries[t];
    RetryWrites(s, t, at, statusOk, fault);
    WriteRespectsCaps(s, y.key, y.gap.id, y.gap.size, Some(y.gap), at, statusOk, fault);
  }

  lemma GlobalCapStep(s: State, e: Event)
    requires |s.unread| <= GLOBAL_MAX_FILES
    ensures |After(s, e).unread| <= GLOBAL_MAX_FILES
  {
    match e
    case Write(k, id, size, at, statusOk, fault) => WriteRespectsCaps(s, k, id, size, None, at, statusOk, fault);
    case WriteGap(k, gap, at, statusOk, fault) => WriteRespectsCaps(s, k, gap.id, gap.size, Some(gap), at, statusOk, fault);
    case WriteRecorded(k, id, size, at, statusOk, fault) => WriteRespectsCaps(s, k, id, size, None, at, statusOk, fault);
    case Retrying(t, part) => PartKeepsFiles(s, t, part);
    case Retry(t, at, statusOk, fault) => if IsAt(s, t, Missing) { RetryWithinGlobal(s, t, at, statusOk, fault); }
    case Move(from, to, ids, clock, statusOk) =>
      MoveUnread(s, from, to, ids, clock, statusOk);
      MovesNeverAddFiles(s.unread, from, to, ids);
    case CutMove(from, to, ids) => MovesNeverAddFiles(s.unread, from, to, ids);
    case Ack(k, id, statusOk) =>
      AckOnlyRemoves(s, k, id, statusOk);
      TotalOfSubset(After(s, e).unread, s.unread);
    case CutAck(k, id, removed) => TotalOfSubset(After(s, e).unread, s.unread);
  }

  // ---- Retention ------------------------------------------------------------------------------

  /** Pruning keeps the newest ids: everything dropped is below everything kept, and no more is dropped than must be. */
  lemma PruningKeepsTheNewest(ids: set<JsString>)
    ensures Excess(ids) <= ids
    ensures |ids - Excess(ids)| == if |ids| <= RETAINED then |ids| else RETAINED
    ensures forall a, b :: a in Excess(ids) && b in ids - Excess(ids) ==> Below(a, b)
  {
    SortedSetIsSorted(ids);
    var sorted := SortedSet(ids);
    var n := if |sorted| <= RETAINED then 0 else |sorted| - RETAINED;
    AscendingHasNoRepeats(sorted);
    PrefixSize(sorted, n);
    assert Excess(ids) == set i | 0 <= i < n :: sorted[i];
    assert |ids - Excess(ids)| == |ids| - |Excess(ids)|;
    forall a, b | a in Excess(ids) && b in ids - Excess(ids) ensures Below(a, b) {
      var i :| 0 <= i < n && sorted[i] == a;
      assert b in sorted;
      var j :| 0 <= j < |sorted| && sorted[j] == b;
      assert j >= n;
    }
  }

  lemma AscendingHasNoRepeats(s: seq<JsString>)
    requires Ascending(s)
    ensures forall i, j :: 0 <= i < j < |s| ==> s[i] != s[j]
  {
    forall i, j | 0 <= i < j < |s| ensures s[i] != s[j] {
      assert Below(s[i], s[j]);
      BelowIsIrreflexive(s[i]);
    }
  }

  lemma {:induction false} PrefixSize(s: seq<JsString>, n: nat)
    requires n <= |s| && forall i, j :: 0 <= i < j < |s| ==> s[i] != s[j]
    ensures |set i | 0 <= i < n :: s[i]| == n
  {
    var a := set i | 0 <= i < n :: s[i];
    if n == 0 {
      assert a == {};
    } else {
      PrefixSize(s, n - 1);
      var b := set i | 0 <= i < n - 1 :: s[i];
      assert a == b + {s[n - 1]};
      assert s[n - 1] !in b;
    }
  }

  lemma {:induction false} SuffixSize(s: seq<JsString>, n: nat)
    requires n <= |s| && forall i, j :: 0 <= i < j < |s| ==> s[i] != s[j]
    ensures |set i | n <= i < |s| :: s[i]| == |s| - n
    decreases |s| - n
  {
    var a := set i | n <= i < |s| :: s[i];
    if n == |s| {
      assert a == {};
    } else {
      SuffixSize(s, n + 1);
      var b := set i | n + 1 <= i < |s| :: s[i];
      assert a == b + {s[n]};
      assert s[n] !in b;
    }
  }

  function Newer(ids: set<JsString>, id: JsString): set<JsString> {
    set x | x in ids && Below(id, x)
  }

  lemma ExcessIsOldest(ids: set<JsString>, id: JsString)
    requires id in ids
    ensures id in Excess(ids) <==> |Newer(ids, id)| >= RETAINED
  {
    SortedSetIsSorted(ids);
    var s := SortedSet(ids);
    AscendingHasNoRepeats(s);
    var i :| 0 <= i < |s| && s[i] == id;
    SuffixSize(s, i + 1);
    var later := set j | i + 1 <= j < |s| :: s[j];
    forall x ensures x in later <==> x in Newer(ids, id) {
      if x in Newer(ids, id) {
        assert x in s;
        var j :| 0 <= j < |s| && s[j] == x;
        BelowIsTotal(s[i], s[j]);
        BelowIsIrreflexive(id);
        assert forall a :: 0 <= a < i ==> Below(s[a], s[i]);
      }
    }
    assert later == Newer(ids, id);
  }

  lemma PruneLeaves(s: State, key: string)
    ensures var ids := IdsIn(s.acked, key);
            && IdsIn(PruneStep(s, key).acked, key) == ids - Excess(ids)
            && forall k :: k != key ==> IdsIn(PruneStep(s, key).acked, k) == IdsIn(s.acked, k)
  {
    var ids := IdsIn(s.acked, key);
    var t := PruneStep(s, key);
    forall id ensures id in IdsIn(t.acked, key) <==> id in ids - Excess(ids) {
      if id in ids - Excess(ids) {
        assert Place(key, id) in t.acked;
      }
    }
    forall k | k != key ensures IdsIn(t.acked, k) == IdsIn(s.acked, k) {
      forall id ensures id in IdsIn(t.acked, k) <==> id in IdsIn(s.acked, k) {
        if id in IdsIn(s.acked, k) {
          assert Place(k, id) in t.acked;
        }
      }
    }
  }

  lemma OthersKeepAcked(s: State, t: State, key: string, k: string)
    requires k != key && forall p: Place :: p.key != key ==> (p in t.acked <==> p in s.acked)
    ensures IdsIn(t.acked, k) == IdsIn(s.acked, k)
  {
    forall id ensures id in IdsIn(t.acked, k) <==> id in IdsIn(s.acked, k) {
      assert id in IdsIn(t.acked, k) <==> Place(k, id) in t.acked;
      assert id in IdsIn(s.acked, k) <==> Place(k, id) in s.acked;
    }
  }

  /** An acknowledgement that goes through leaves at most the retained count, and any other changes nothing acknowledged. */
  lemma AckRetains(s: State, key: string, id: JsString, statusOk: bool)
    ensures var (t, r) := AckStep(s, key, id, statusOk);
            && (if r == Acked then |IdsIn(t.acked, key)| <= RETAINED else t.acked == s.acked)
            && forall k :: k != key ==> IdsIn(t.acked, k) == IdsIn(s.acked, k)
  {
    var t := AckStep(s, key, id, statusOk).0;
    var p := Place(key, id);
    if p in s.unread {
      var u := WithBox(s, key).(unread := s.unread - {p}, acked := s.acked + {p});
      PruneLeaves(u, key);
      PruningKeepsTheNewest(IdsIn(u.acked, key));
      assert t.acked == PruneStep(u, key).acked;
    }
    forall k | k != key ensures IdsIn(t.acked, k) == IdsIn(s.acked, k) {
      OthersKeepAcked(s, t, key, k);
    }
  }

  /** An acknowledgement cut short adds at most one file. */
  lemma CutAckAddsOne(s: State, key: string, id: JsString, removed: nat)
    ensures var t := CutAckStep(s, key, id, removed);
            && |IdsIn(t.acked, key)| <= |IdsIn(s.acked, key)| + 1
            && forall k :: k != key ==> IdsIn(t.acked, k) == IdsIn(s.acked, k)
  {
    var t := CutAckStep(s, key, id, removed);
    var a, b := IdsIn(t.acked, key), IdsIn(s.acked, key);
    forall x | x in a ensures x in b + {id} {
      assert Place(key, x) in t.acked;
    }
    assert |b + {id}| <= |b| + 1;
    FewerIds(a, b + {id});
    forall k | k != key ensures IdsIn(t.acked, k) == IdsIn(s.acked, k) {
      OthersKeepAcked(s, t, key, k);
    }
  }

  lemma FewerIds(a: set<JsString>, b: set<JsString>)
    requires a <= b
    ensures |a| <= |b|
  {
    assert b == a + (b - a);
  }

  lemma PersistKeepsAcked(s: State, key: string, id: JsString, size: nat, hold: Option<Gap>, at: nat, statusOk: bool, fault: Fault)
    ensures PersistStep(s, key, id, size, hold, at, statusOk, fault).0.acked == s.acked
  {
  }

  lemma OnlyAckTouchesAcked(s: State, e: Event)
    requires !e.Ack? && !e.CutAck?
    ensures After(s, e).acked == s.acked
  {
    match e
    case Write(key, id, size, at, statusOk, fault) => PersistKeepsAcked(s, key, id, size, None, at, statusOk, fault);
    case WriteGap(key, gap, at, statusOk, fault) => PersistKeepsAcked(s, key, gap.id, gap.size, Some(gap), at, statusOk, fault);
    case WriteRecorded(key, id, size, at, statusOk, fault) => PersistKeepsAcked(s, key, id, size, None, at, statusOk, fault);
    case Retrying(t, part) => PartKeepsFiles(s, t, part);
    case Retry(t, at, statusOk, fault) =>
      if IsAt(s, t, Missing) {
        PersistKeepsAcked(s, s.tries[t].key, s.tries[t].gap.id, s.tries[t].gap.size, Some(s.tries[t].gap), at, statusOk, fault);
        RetryWrites(s, t, at, statusOk, fault);
      }
    case Move(from, to, ids, clock, statusOk) => MoveUnread(s, from, to, ids, clock, statusOk);
    case CutMove(from, to, ids) =>
  }

  /** How often an acknowledgement in this mailbox was cut short since one last went through. */
  ghost function CutsSince(events: seq<Event>, key: string): nat
    decreases |events|
  {
    if events == [] then 0
    else
      var front, e := events[..|events| - 1], events[|events| - 1];
      if e.CutAck? && e.key == key then CutsSince(front, key) + 1
      else if e.Ack? && e.key == key && AckStep(Run(EMPTY, front), key, e.id, e.statusOk).1 == Acked then 0
      else CutsSince(front, key)
  }

  /**
   In every reachable state, moves and crashes included: at most 5,000 unread files in all; and per
   mailbox at most 1,000 acknowledged, and one more for each acknowledgement cut short since one
   last went through.
   */
  lemma {:induction false} RunStaysBounded(events: seq<Event>)
    ensures |Run(EMPTY, events).unread| <= GLOBAL_MAX_FILES
    ensures forall key :: |IdsIn(Run(EMPTY, events).acked, key)| <= RETAINED + CutsSince(events, key)
    decreases |events|
  {
    if events == [] {
      assert forall key :: IdsIn(EMPTY.acked, key) == {};
    } else {
      var front, e := events[..|events| - 1], events[|events| - 1];
      RunStaysBounded(front);
      var s := Run(EMPTY, front);
      GlobalCapStep(s, e);
      if e.Ack? {
        AckRetains(s, e.key, e.id, e.statusOk);
      } else if e.CutAck? {
        CutAckAddsOne(s, e.key, e.id, e.removed);
      } else {
        OnlyAckTouchesAcked(s, e);
      }
    }
  }

  lemma OldestAre(ids: set<JsString>, n: nat)
    ensures Oldest(ids, n) <= ids && (n == 0 ==> Oldest(ids, n) == {}) && (n >= |ids| ==> Oldest(ids, n) == ids)
  {
    SortedSetIsSorted(ids);
    var sorted := SortedSet(ids);
    AscendingHasNoRepeats(sorted);
    PrefixSize(sorted, |sorted|);
    assert (set i | 0 <= i < |sorted| :: sorted[i]) == ids;
  }

  /** The acknowledged ids after a cut acknowledgement, said at once. */
  lemma CutAckLeaves(s: State, key: string, id: JsString, removed: nat)
    requires Place(key, id) in s.unread
    ensures var all := IdsIn(s.acked, key) + {id};
            IdsIn(CutAckStep(s, key, id, removed).acked, key) == all - Oldest(Excess(all), removed)
  {
    var t, all, acked := CutAckStep(s, key, id, removed), IdsIn(s.acked, key) + {id}, s.acked + {Place(key, id)};
    forall x ensures x in IdsIn(acked, key) <==> x in all {
      assert x in IdsIn(s.acked, key) <==> Place(key, x) in s.acked;
      assert x in IdsIn(acked, key) <==> Place(key, x) in acked;
    }
    assert IdsIn(acked, key) == all;
    forall x ensures x in IdsIn(t.acked, key) <==> x in all - Oldest(Excess(all), removed) {
      assert x in IdsIn(t.acked, key) <==> Place(key, x) in t.acked;
      assert x in all <==> Place(key, x) in acked;
    }
  }

  ghost predicate Retains(s: State, key: string) {
    |IdsIn(s.acked, key)| <= RETAINED
  }

  /**
   A cut acknowledgement keeps a mailbox at 1,000 acknowledged files exactly when it acknowledges
   nothing new, or there is room for it, or it came to prune at all.
   */
  lemma CutAckStaysIff(s: State, key: string, id: JsString, removed: nat)
    requires Retains(s, key)
    ensures Retains(After(s, CutAck(key, id, removed)), key) <==>
            (Place(key, id) !in s.unread || id in IdsIn(s.acked, key) || |IdsIn(s.acked, key)| < RETAINED || removed > 0)
  {
    if Place(key, id) in s.unread {
      var ids, all := IdsIn(s.acked, key), IdsIn(s.acked, key) + {id};
      CutAckLeaves(s, key, id, removed);
      if id in ids {
        assert all == ids;
      } else {
        assert |all| == |ids| + 1;
      }
      CutPruneLeaves(all, removed);
    } else {
      assert After(s, CutAck(key, id, removed)).acked == s.acked;
    }
  }

  lemma CutPruneLeaves(ids: set<JsString>, removed: nat)
    requires |ids| <= RETAINED + 1
    ensures |ids - Oldest(Excess(ids), removed)| <= RETAINED <==> |ids| <= RETAINED || removed > 0
  {
    ExcessIsTheRest(ids);
    OldestAre(Excess(ids), removed);
    FewerIds(ids - Oldest(Excess(ids), removed), ids);
    if |ids| > RETAINED && removed > 0 {
      assert Oldest(Excess(ids), removed) == Excess(ids);
      assert |ids - Excess(ids)| == |ids| - |Excess(ids)|;
    }
  }

  lemma ExcessIsTheRest(ids: set<JsString>)
    ensures Excess(ids) <= ids && |Excess(ids)| == if |ids| <= RETAINED then 0 else |ids| - RETAINED
  {
    PruningKeepsTheNewest(ids);
    assert ids == (ids - Excess(ids)) + Excess(ids);
  }

  /** An acknowledgement of a new id, cut before its first pruning, in a mailbox that holds the full thousand. */
  ghost predicate Overflows(s: State, e: Event, key: string) {
    && e.CutAck? && e.key == key && e.removed == 0 && Place(key, e.id) in s.unread
    && e.id !in IdsIn(s.acked, key) && |IdsIn(s.acked, key)| >= RETAINED
  }

  lemma StepRetainsIff(s: State, e: Event, key: string)
    requires Retains(s, key)
    ensures Retains(After(s, e), key) <==> !Overflows(s, e, key)
  {
    if e.Ack? {
      AckRetains(s, e.key, e.id, e.statusOk);
    } else if e.CutAck? {
      if e.key == key {
        CutAckStaysIff(s, key, e.id, e.removed);
      } else {
        CutAckAddsOne(s, e.key, e.id, e.removed);
      }
    } else {
      OnlyAckTouchesAcked(s, e);
    }
  }

  /** Over any run, a mailbox keeps at most 1,000 acknowledged files throughout exactly when no step overflows it. */
  lemma RunRetainsIff(events: seq<Event>, key: string)
    ensures (forall k :: 0 <= k <= |events| ==> Retains(Run(EMPTY, events[..k]), key)) <==>
            forall i :: 0 <= i < |events| ==> !Overflows(Run(EMPTY, events[..i]), events[i], key)
  {
    var trace, good := States(EMPTY, events), (i: nat) => i < |events| ==> !Overflows(Run(EMPTY, events[..i]), events[i], key);
    assert events[..0] == [] && IdsIn(EMPTY.acked, key) == {};
    forall i: nat | i + 1 < |trace| && Retains(trace[i], key) ensures Retains(trace[i + 1], key) <==> good(i) {
      RunStep(EMPTY, events, i);
      StepRetainsIff(trace[i], events[i], key);
    }
    ChainHoldsIff(trace, (x: State) => Retains(x, key), good);
    assert forall i :: 0 <= i < |events| ==> (good(i) <==> !Overflows(Run(EMPTY, events[..i]), events[i], key));
  }

  /**
   Acknowledging twice: the second call answers `already-acked` exactly when fewer than 1,000
   newer acknowledged ids were there before the first; otherwise the event was pruned by its own ack.
   */
  lemma SecondAckAnswers(s: State, key: string, id: JsString, first: bool, second: bool)
    requires OnePlace(s) && Place(key, id) in s.unread
    ensures var (t, r) := AckStep(s, key, id, first);
            && r == Acked
            && AckStep(t, key, id, second).1 == if |Newer(IdsIn(s.acked, key), id)| < RETAINED then AlreadyAcked else NotFound
  {
    var p := Place(key, id);
    var u := WithBox(s, key).(unread := s.unread - {p}, acked := s.acked + {p});
    var ids := IdsIn(u.acked, key);
    assert p in u.acked && id in ids;
    ExcessIsOldest(ids, id);
    BelowIsIrreflexive(id);
    forall x ensures x in Newer(ids, id) <==> x in Newer(IdsIn(s.acked, key), id) {
      if x in Newer(ids, id) {
        var q :| q in u.acked && q.key == key && q.id == x;
        assert q in s.acked;
      }
      if x in Newer(IdsIn(s.acked, key), id) {
        var q :| q in s.acked && q.key == key && q.id == x;
        assert q in u.acked;
      }
    }
    assert Newer(ids, id) == Newer(IdsIn(s.acked, key), id);
    var t := AckStep(s, key, id, first).0;
    assert p !in t.unread;
    assert p in t.acked <==> id !in Excess(ids);
  }

  /** One unread event older than a thousand acknowledged ones. */
  ghost function Crowded(key: string): State {
    State({key}, map[Place(key, [0]) := 1], set i: Unit | 1 <= i <= RETAINED :: Place(key, [i]), map[], map[], false,
          set i: Unit | 0 <= i <= RETAINED :: [i], {}, map[])
  }

  lemma CrowdedHasNewer(key: string)
    ensures |Newer(IdsIn(Crowded(key).acked, key), [0])| == RETAINED
  {
    var s := Crowded(key);
    var later: seq<JsString> := seq(RETAINED, i requires 0 <= i < RETAINED => [i + 1]);
    PrefixSize(later, RETAINED);
    var ids := set i | 0 <= i < RETAINED :: later[i];
    forall x ensures x in ids <==> x in Newer(IdsIn(s.acked, key), [0]) {
      if x in Newer(IdsIn(s.acked, key), [0]) {
        var q :| q in s.acked && q.id == x;
        var i: Unit :| 1 <= i <= RETAINED && q == Place(key, [i]);
        assert later[i - 1] == x;
      }
      if x in ids {
        var i :| 0 <= i < RETAINED && later[i] == x;
        assert Place(key, [i + 1]) in s.acked;
      }
    }
    assert ids == Newer(IdsIn(s.acked, key), [0]);
  }

  lemma CrowdedHasOnePlace(key: string)
    ensures OnePlace(Crowded(key))
  {
    var s := Crowded(key);
    forall x ensures x in s.persisted <==> x in (set p | p in Everywhere(s) :: p.id) {
      if x in s.persisted {
        assert Place(key, x) in Everywhere(s);
      }
    }
  }

  lemma OneFileIsNotDegraded(s: State, p: Place)
    requires s.unread == map[p := 1] || s.unread == map[]
    ensures !Degraded(s)
  {
    forall key ensures FileCount(s.unread, key) <= 1 && ByteCount(s.unread, key) <= 1 {
      if In(s.unread, key) != map[] {
        assert In(s.unread, key) == map[p := 1];
        TotalRemove(map[p := 1], p);
        assert map[p := 1] - {p} == map[];
      }
    }
  }

  lemma QuietWrite(s: State, key: string, id: JsString)
    requires s.unread == map[] && !s.degraded
    ensures After(s, Write(key, id, 1, 0, true, NoFault)) ==
            s.(boxes := s.boxes + {key}, unread := map[Place(key, id) := 1], persisted := s.persisted + {id})
  {
    var l := Land(WithBox(s, key), key, id, 1);
    EmptyHasRoom(WithBox(s, key), key, 1);
    OneFileIsNotDegraded(l, Place(key, id));
  }

  lemma QuietAck(s: State, key: string, id: JsString)
    requires s.unread == map[Place(key, id) := 1] && !s.degraded && key in s.boxes && |IdsIn(s.acked + {Place(key, id)}, key)| <= RETAINED
    ensures After(s, Ack(key, id, true)) == s.(unread := map[], acked := s.acked + {Place(key, id)})
  {
    var u := s.(unread := map[], acked := s.acked + {Place(key, id)});
    assert s.boxes + {key} == s.boxes && s.unread - {Place(key, id)} == map[];
    ExcessIsTheRest(IdsIn(u.acked, key));
    assert PruneStep(u, key) == u;
    OneFileIsNotDegraded(u, Place(key, id));
  }

  /** The ids `[1]` to `[n]`, written and acknowledged one after another. */
  function Crowding(key: string, n: nat): seq<Event>
    requires n <= RETAINED
  {
    if n == 0 then [] else Crowding(key, n - 1) + [Write(key, [n], 1, 0, true, NoFault)] + [Ack(key, [n], true)]
  }

  ghost function Numbered(n: nat): set<JsString> {
    set i: Unit | 1 <= i <= n :: [i]
  }

  ghost function Filled(key: string, n: nat): State {
    State(if n == 0 then {} else {key}, map[], set i: Unit | 1 <= i <= n :: Place(key, [i]), map[], map[], false, Numbered(n), {}, map[])
  }

  lemma NumberedSize(n: nat)
    requires n <= RETAINED
    ensures |Numbered(n)| == n
  {
    var s: seq<JsString> := seq(n, i requires 0 <= i < n => [i + 1]);
    PrefixSize(s, n);
    var ids := set i | 0 <= i < n :: s[i];
    forall x ensures x in ids <==> x in Numbered(n) {
      if x in Numbered(n) {
        var i: Unit :| 1 <= i <= n && x == [i];
        assert s[i - 1] == x;
      }
    }
    assert ids == Numbered(n);
  }

  lemma QuietPair(s: State, key: string, id: JsString)
    requires s.unread == map[] && !s.degraded && |IdsIn(s.acked + {Place(key, id)}, key)| <= RETAINED
    ensures After(After(s, Write(key, id, 1, 0, true, NoFault)), Ack(key, id, true)) ==
            s.(boxes := s.boxes + {key}, acked := s.acked + {Place(key, id)}, persisted := s.persisted + {id})
  {
    QuietWrite(s, key, id);
    var u := s.(boxes := s.boxes + {key}, unread := map[Place(key, id) := 1], persisted := s.persisted + {id});
    QuietAck(u, key, id);
  }

  lemma OneMoreFills(key: string, n: nat)
    requires 0 < n <= RETAINED
    ensures var s, t := Filled(key, n - 1), Filled(key, n);
            && t == s.(boxes := s.boxes + {key}, acked := s.acked + {Place(key, [n])}, persisted := s.persisted + {[n]})
            && |IdsIn(t.acked, key)| <= RETAINED
  {
    var t := Filled(key, n);
    NumberedSize(n);
    FewerIds(IdsIn(t.acked, key), Numbered(n));
  }

  lemma RunAppendsTwo(s: State, events: seq<Event>, a: Event, b: Event)
    ensures Run(s, events + [a] + [b]) == After(After(Run(s, events), a), b)
  {
    RunAppends(s, events, a);
    RunAppends(s, events + [a], b);
  }

  lemma {:induction false} CrowdingFills(key: string, n: nat)
    requires n <= RETAINED
    ensures Run(EMPTY, Crowding(key, n)) == Filled(key, n)
  {
    if n == 0 {
      assert Filled(key, 0) == EMPTY;
    } else {
      CrowdingFills(key, n - 1);
      RunAppendsTwo(EMPTY, Crowding(key, n - 1), Write(key, [n], 1, 0, true, NoFault), Ack(key, [n], true));
      OneMoreFills(key, n);
      QuietPair(Filled(key, n - 1), key, [n]);
    }
  }

  /** It is reached: a thousand events written and acknowledged, and an older one written late. */
  lemma CrowdedIsReached(key: string)
    ensures Run(EMPTY, Crowding(key, RETAINED) + [Write(key, [0], 1, 0, true, NoFault)]) == Crowded(key)
  {
    CrowdingFills(key, RETAINED);
    RunAppends(EMPTY, Crowding(key, RETAINED), Write(key, [0], 1, 0, true, NoFault));
    QuietWrite(Filled(key, RETAINED), key, [0]);
    assert Numbered(RETAINED) + {[0]} == Crowded(key).persisted;
  }

  /** The input: its own ack prunes it, and a second ack no longer finds it. */
  lemma OldEventIsPrunedByItsAck(key: string, first: bool, second: bool)
    ensures OnePlace(Crowded(key))
    ensures var (t, r) := AckStep(Crowded(key), key, [0], first); r == Acked && AckStep(t, key, [0], second).1 == NotFound
  {
    CrowdedHasNewer(key);
    CrowdedHasOnePlace(key);
    SecondAckAnswers(Crowded(key), key, [0], first, second);
  }

  /** Cut short before the pruning, an acknowledgement adds its file and drops none. */
  lemma UnprunedAckAdds(s: State, key: string, id: JsString)
    requires Place(key, id) in s.unread
    ensures IdsIn(CutAckStep(s, key, id, 0).acked, key) == IdsIn(s.acked, key) + {id}
  {
    var t := CutAckStep(s, key, id, 0);
    assert Oldest(Excess(IdsIn(s.acked + {Place(key, id)}, key)), 0) == {};
    assert t.acked == s.acked + {Place(key, id)};
    forall x ensures x in IdsIn(t.acked, key) <==> x in IdsIn(s.acked, key) + {id} {
      assert x in IdsIn(s.acked, key) <==> Place(key, x) in s.acked;
      assert x in IdsIn(t.acked, key) <==> Place(key, x) in t.acked;
    }
  }

  lemma CrowdedAreNewer(key: string)
    ensures IdsIn(Crowded(key).acked, key) == Newer(IdsIn(Crowded(key).acked, key), [0]) && [0] !in IdsIn(Crowded(key).acked, key)
  {
    forall x | x in IdsIn(Crowded(key).acked, key) ensures Below([0], x) && x != [0] {
      var i: Unit :| 1 <= i <= RETAINED && x == [i];
    }
  }

  lemma UnprunedAckGrows(s: State, key: string, id: JsString)
    requires Place(key, id) in s.unread && id !in IdsIn(s.acked, key)
    ensures |IdsIn(After(s, CutAck(key, id, 0)).acked, key)| == |IdsIn(s.acked, key)| + 1
  {
    UnprunedAckAdds(s, key, id);
  }

  lemma CrowdedIsUnread(key: string)
    ensures Place(key, [0]) in Crowded(key).unread
  {
  }

  /** The input on which 1,001 acknowledged files are left: a crash between the rename and the pruning. */
  lemma CutAckLeavesOneTooMany(key: string)
    ensures OnePlace(Crowded(key)) && |IdsIn(Crowded(key).acked, key)| == RETAINED
    ensures |IdsIn(After(Crowded(key), CutAck(key, [0], 0)).acked, key)| == RETAINED + 1
  {
    var s := Crowded(key);
    CrowdedHasNewer(key);
    CrowdedHasOnePlace(key);
    CrowdedAreNewer(key);
    CrowdedIsUnread(key);
    UnprunedAckGrows(s, key, [0]);
  }

  // ---- The mailbox object ---------------------------------------------------------------------

  datatype Counts = Counts(files: map<string, nat>, bytes: map<string, nat>, global: nat)

  /** What a scan of every unread directory counts. */
  ghost predicate Tallies(c: Counts, boxes: set<string>, files: Files) {
    && c.files.Keys == boxes && c.bytes.Keys == boxes
    && (forall key :: key in boxes ==> c.files[key] == FileCount(files, key) && c.bytes[key] == ByteCount(files, key))
    && c.global == |files|
  }

  predicate CapState(c: Counts) {
    || (exists key :: key in c.files && (c.files[key] >= MAX_FILES || (key in c.bytes && c.bytes[key] >= MAX_BYTES)))
    || c.global >= GLOBAL_MAX_FILES
  }

  predicate CountsAtCap(c: Counts, key: string, addBytes: nat)
    requires key in c.files && key in c.bytes
  {
    c.files[key] + 1 > MAX_FILES || c.bytes[key] + addBytes > MAX_BYTES || c.global + 1 > GLOBAL_MAX_FILES
  }

  lemma PickedTotals(files: Files, left: set<Place>, p: Place)
    requires left <= files.Keys && p in left
    ensures var a := map q | q in files && q !in left :: files[q];
            var b := map q | q in files && q !in left - {p} :: files[q];
            Total(b) == Total(a) + files[p] && |b| == |a| + 1
  {
    var a := map q | q in files && q !in left :: files[q];
    var b := map q | q in files && q !in left - {p} :: files[q];
    assert b - {p} == a;
    TotalRemove(b, p);
    assert b == a[p := files[p]];
  }

  lemma CreatingTheBoxChangesNothing(s: State, key: string, id: JsString, size: nat, hold: Option<Gap>, at: nat, statusOk: bool, fault: Fault)
    ensures PersistStep(WithBox(s, key), key, id, size, hold, at, statusOk, fault) == PersistStep(s, key, id, size, hold, at, statusOk, fault)
  {
    assert WithBox(WithBox(s, key), key) == WithBox(s, key);
  }

  ghost function Outside(files: Files, left: set<string>): set<Place> {
    set p | p in files && p.key !in left
  }

  ghost predicate BoxTally(files: Files, key: string, count: nat, bytes: nat) {
    count == FileCount(files, key) && bytes == ByteCount(files, key)
  }

  lemma TallyComplete(c: Counts, boxes: set<string>, files: Files)
    requires c.files.Keys == boxes && c.bytes.Keys == boxes && c.global == |files.Keys|
    requires forall key :: key in c.files && key in c.bytes ==> BoxTally(files, key, c.files[key], c.bytes[key])
    ensures Tallies(c, boxes, files)
  {
    assert |files.Keys| == |files|;
  }

  lemma BoxCounted(files: Files, left: set<string>, key: string)
    requires key in left
    ensures |Outside(files, left - {key})| == |Outside(files, left)| + FileCount(files, key)
  {
    var mine := In(files, key).Keys;
    assert Outside(files, left - {key}) == Outside(files, left) + mine;
    assert Outside(files, left) !! mine;
  }

  class Mailboxes {
    var boxes: set<string>
    var unread: Files
    var acked: set<Place>
    var lost: map<string, Account>
    var held: map<string, Gap>
    var degraded: bool
    var tries: map<nat, Try>
    ghost var persisted: set<JsString>
    ghost var pruned: set<Place>

    ghost function Contents(): State
      reads this
    {
      State(boxes, unread, acked, lost, held, degraded, persisted, pruned, tries)
    }

    /** Every file is in a mailbox that exists. */
    ghost predicate Valid()
      reads this
    {
      forall p :: p in unread ==> p.key in boxes
    }

    constructor ()
      ensures Valid() && Contents() == EMPTY
    {
      boxes, unread, acked, lost, held, degraded, tries := {}, map[], {}, map[], map[], false, map[];
      persisted, pruned := {}, {};
    }

    /** One unread directory: its files and their bytes. */
    method ScanBox(key: string) returns (files: nat, bytes: nat)
      ensures files == FileCount(unread, key) && bytes == ByteCount(unread, key)
    {
      var mine := In(unread, key);
      var left := mine.Keys;
      files, bytes := 0, 0;
      assert (map q | q in mine && q !in left :: mine[q]) == map[];
      while left != {}
        invariant left <= mine.Keys
        invariant var seen := map q | q in mine && q !in left :: mine[q]; files == |seen| && bytes == Total(seen)
        decreases |left|
      {
        var p :| p in left;
        PickedTotals(mine, left, p);
        files := files + 1;
        bytes := bytes + mine[p];
        left := left - {p};
      }
      assert (map q | q in mine && q !in left :: mine[q]) == mine;
    }

    method ScanCounts() returns (c: Counts)
      requires Valid()
      ensures Tallies(c, boxes, unread)
    {
      var left := boxes;
      var fileCounts: map<string, nat>, byteCounts: map<string, nat>, global := map[], map[], 0;
      assert Outside(unread, left) == {};
      while left != {}
        invariant left <= boxes
        invariant fileCounts.Keys == boxes - left && byteCounts.Keys == boxes - left
        invariant forall key :: key in fileCounts && key in byteCounts ==> BoxTally(unread, key, fileCounts[key], byteCounts[key])
        invariant global == |Outside(unread, left)|
        decreases |left|
      {
        var key :| key in left;
        var files, bytes := ScanBox(key);
        assert BoxTally(unread, key, files, bytes);
        BoxCounted(unread, left, key);
        fileCounts, byteCounts := fileCounts[key := files], byteCounts[key := bytes];
        global := global + files;
        left := left - {key};
      }
      assert Outside(unread, left) == unread.Keys;
      c := Counts(fileCounts, byteCounts, global);
      TallyComplete(c, boxes, unread);
    }

    method RecordFailure(key: string, at: nat, hold: Option<Gap>, statusOk: bool) returns (isHeld: bool)
      modifies this`lost, this`held, this`degraded
      ensures isHeld == (hold.Some? && statusOk)
      ensures Contents() == if !statusOk then old(Contents())
                            else if hold.Some? then Hold(old(Contents()), key, hold.value)
                            else CountLoss(old(Contents()), key, at, true)
    {
      if !statusOk { return false; }
      degraded := true;
      if hold.Some? {
        held := held[key := hold.value];
        return true;
      }
      lost := lost[key := if key in lost then Account(lost[key].count + 1, lost[key].firstAt, at) else Account(1, at, at)];
      isHeld := false;
    }

    method RecordCapacity(statusOk: bool)
      requires Valid()
      modifies this`degraded
      ensures Contents() == Assessed(old(Contents()), statusOk)
    {
      if statusOk {
        var c := ScanCounts();
        assert CapState(c) <==> Degraded(Contents());
        degraded := CapState(c);
      }
    }

    method PersistEvent(key: string, id: JsString, size: nat, hold: Option<Gap>, at: nat, statusOk: bool, fault: Fault) returns (r: WriteResult)
      requires Valid()
      modifies this
      ensures Valid() && (Contents(), r) == PersistStep(old(Contents()), key, id, size, hold, at, statusOk, fault)
    {
      CreatingTheBoxChangesNothing(Contents(), key, id, size, hold, at, statusOk, fault);
      boxes := boxes + {key};
      assert Contents() == WithBox(old(Contents()), key);
      var full := IsFull(key, size);
      if full {
        r := RefuseAtCap(key, id, size, hold, at, statusOk, fault);
      } else {
        r := WriteAdmitted(key, id, size, hold, at, statusOk, fault);
      }
    }

    method IsFull(key: string, addBytes: nat) returns (full: bool)
      requires Valid() && key in boxes
      ensures full == AtCap(Contents(), key, addBytes)
    {
      var c := ScanCounts();
      full := CountsAtCap(c, key, addBytes);
    }

    /** At cap there is no eviction: a gap is held if it can be, any other event is counted as lost. */
    method RefuseAtCap(key: string, id: JsString, ghost size: nat, hold: Option<Gap>, at: nat, statusOk: bool, ghost fault: Fault) returns (r: WriteResult)
      requires Valid() && key in boxes && AtCap(Contents(), key, size)
      modifies this`lost, this`held, this`degraded
      ensures Valid() && (Contents(), r) == PersistStep(old(Contents()), key, id, size, hold, at, statusOk, fault)
    {
      assert WithBox(Contents(), key) == Contents();
      if hold.Some? {
        var isHeld := RecordFailure(key, at, hold, statusOk);
        if isHeld { return NotPersisted(id, Capacity, true); }
      }
      var _ := RecordFailure(key, at, None, statusOk);
      return NotPersisted(id, Capacity, false);
    }

    /** The no-clobber write of an event that is within the caps. */
    method WriteAdmitted(key: string, id: JsString, size: nat, ghost hold: Option<Gap>, at: nat, statusOk: bool, fault: Fault) returns (r: WriteResult)
      requires Valid() && key in boxes && !AtCap(Contents(), key, size)
      modifies this
      ensures Valid() && (Contents(), r) == PersistStep(old(Contents()), key, id, size, hold, at, statusOk, fault)
    {
      ghost var s := Contents();
      assert WithBox(s, key) == s;
      if fault == BeforeLink {
        var _ := RecordFailure(key, at, None, statusOk);
        return NotPersisted(id, Unavailable, false);
      }
      if Place(key, id) in unread {
        var _ := RecordFailure(key, at, None, statusOk);
        return NotPersisted(id, Collision, false);
      }
      unread := unread[Place(key, id) := size];
      persisted := persisted + {id};
      assert Contents() == Land(s, key, id, size);
      if fault == AfterLink {
        var _ := RecordFailure(key, at, None, statusOk);
        return NotPersisted(id, Unavailable, false);
      }
      RecordCapacity(statusOk);
      return Persisted(id);
    }

    method WriteRecordedEvent(key: string, id: JsString, size: nat, at: nat, statusOk: bool, fault: Fault) returns (r: WriteResult)
      requires Valid()
      modifies this
      ensures Valid() && (Contents(), r) == RecordedStep(old(Contents()), key, id, size, at, statusOk, fault)
    {
      if Place(key, id) in unread || Place(key, id) in acked {
        boxes := boxes + {key};
        return Persisted(id);
      }
      r := PersistEvent(key, id, size, None, at, statusOk, fault);
    }

    /** A retry begins with the gap that is held when the status record is read. */
    method BeginRetry(t: nat, key: string)
      requires t !in tries && key in held
      modifies `tries
      ensures Contents() == PartStep(old(Contents()), t, Part.Begin(key))
    {
      tries := tries[t := Try(key, held[key], AtStart)];
    }

    method LookUnread(t: nat)
      requires IsAt(Contents(), t, AtStart)
      modifies `tries
      ensures Contents() == PartStep(old(Contents()), t, SeeUnread)
    {
      var y := tries[t];
      var found := Place(y.key, y.gap.id) in unread;
      tries := tries[t := y.(stage := if found then Landed else NotUnread)];
    }

    method LookAcked(t: nat)
      requires IsAt(Contents(), t, NotUnread)
      modifies `tries
      ensures Contents() == PartStep(old(Contents()), t, SeeAcked)
    {
      var y := tries[t];
      var found := Place(y.key, y.gap.id) in acked;
      tries := tries[t := y.(stage := if found then Landed else Missing)];
    }

    /** The locked part: the held gap is written again, verbatim. */
    method WriteHeldGap(t: nat, at: nat, statusOk: bool, fault: Fault)
      requires Valid() && IsAt(Contents(), t, Missing)
      modifies this
      ensures Valid() && Contents() == RetryStep(old(Contents()), t, at, statusOk, fault)
    {
      var y := tries[t];
      var r := PersistEvent(y.key, y.gap.id, y.gap.size, Some(y.gap), at, statusOk, fault);
      if r.Persisted? {
        tries := tries[t := y.(stage := Landed)];
      } else {
        tries := tries - {t};
      }
    }

    method ReadHeldGaps(t: nat)
      requires IsAt(Contents(), t, Landed)
      modifies `tries
      ensures Contents() == PartStep(old(Contents()), t, ReadHeld)
    {
      tries := tries[t := tries[t].(stage := Clearing(held))];
    }

    /** What was read is written back without this mailbox. */
    method ClearHeldGap(t: nat, statusOk: bool)
      requires IsClearing(Contents(), t)
      modifies `tries, `held
      ensures Contents() == PartStep(old(Contents()), t, Clear(statusOk))
    {
      if statusOk {
        held := tries[t].stage.read - {tries[t].key};
      }
      tries := tries - {t};
    }

    method CheckLaunchCapacity(key: string) returns (ok: bool)
      requires Valid()
      modifies this`boxes
      ensures Valid() && Contents() == WithBox(old(Contents()), key) && ok == !AtCap(Contents(), key, 0)
    {
      boxes := boxes + {key};
      var full := IsFull(key, 0);
      ok := !full;
    }

    method MoveUnread(from: string, to: string, ids: seq<JsString>, clock: nat -> nat, statusOk: bool) returns (m: Moves)
      requires Valid()
      modifies this
      ensures Valid() && (Contents(), m) == MoveStep(old(Contents()), from, to, ids, clock, statusOk)
    {
      boxes := boxes + {from, to};
      m := Moves([], [], []);
      ghost var files := unread;
      var n := 0;
      while n < |ids|
        invariant 0 <= n <= |ids| && Valid()
        invariant Contents() == old(Contents()).(boxes := old(boxes) + {from, to}, unread := MoveFiles(files, from, to, ids[..n]))
        invariant m == MoveOutcome(files, from, to, ids[..n])
      {
        var id := ids[n];
        assert ids[..n + 1][..n] == ids[..n];
        if Place(from, id) in unread {
          unread := (unread - {Place(from, id)})[Place(to, id) := unread[Place(from, id)]];
          m := m.(moved := m.moved + [id]);
        } else if Place(to, id) in unread {
          m := m.(already := m.already + [id]);
        } else {
          m := m.(lost := m.lost + [id]);
        }
        n := n + 1;
      }
      assert ids[..n] == ids;
      ghost var s1 := Contents();
      var i := 0;
      while i < |m.lost|
        invariant 0 <= i <= |m.lost| && unread == s1.unread && boxes == s1.boxes
        invariant Contents() == CountLosses(s1, from, Clocked(clock, i), statusOk)
      {
        var _ := RecordFailure(from, clock(i), None, statusOk);
        assert Clocked(clock, i + 1)[..i] == Clocked(clock, i);
        i := i + 1;
      }
      RecordCapacity(statusOk);
    }

    /** Directory names in ascending order. */
    method SortedIds(ids: set<JsString>) returns (sorted: seq<JsString>)
      ensures sorted == SortedSet(ids)
    {
      sorted := [];
      var left := ids;
      while left != {}
        invariant left <= ids && Ascending(sorted)
        invariant forall x :: x in sorted <==> x in ids - left
        decreases |left|
      {
        var x :| x in left;
        InsertKeepsAscending(x, sorted);
        sorted := Insert(x, sorted);
        left := left - {x};
      }
      SortedSetIsSorted(ids);
      AscendingIsUnique(sorted, SortedSet(ids));
    }

    method PruneAcked(key: string)
      modifies this`acked, this`pruned
      ensures Contents() == PruneStep(old(Contents()), key)
    {
      var ids := IdsIn(acked, key);
      var names := SortedIds(ids);
      ghost var before := acked;
      ghost var history := pruned;
      SortedSetIsSorted(ids);
      var index := 0;
      while index < |names| - RETAINED
        invariant 0 <= index <= |names|
        invariant index > 0 ==> index <= |names| - RETAINED
        invariant acked == before - Listed(key, names, index)
        invariant pruned == history + Listed(key, names, index)
      {
        acked := acked - {Place(key, names[index])};
        pruned := pruned + {Place(key, names[index])};
        assert Listed(key, names, index + 1) == Listed(key, names, index) + {Place(key, names[index])};
        index := index + 1;
      }
      assert Excess(ids) == set i | 0 <= i < index :: names[i];
      DroppedIsListed(before, key, names, index);
    }

    method Ack(key: string, id: JsString, statusOk: bool) returns (r: AckResult)
      requires Valid()
      modifies this
      ensures Valid() && (Contents(), r) == AckStep(old(Contents()), key, id, statusOk)
    {
      boxes := boxes + {key};
      var p := Place(key, id);
      if p in unread {
        unread := unread - {p};
        acked := acked + {p};
        PruneAcked(key);
        RecordCapacity(statusOk);
        return Acked;
      }
      r := if p in acked then AlreadyAcked else NotFound;
    }
  }

  ghost function Listed(key: string, names: seq<JsString>, n: nat): set<Place>
    requires n <= |names|
  {
    set i | 0 <= i < n :: Place(key, names[i])
  }

  lemma DroppedIsListed(acked: set<Place>, key: string, names: seq<JsString>, n: nat)
    requires n <= |names| && names == SortedSet(IdsIn(acked, key))
    requires Excess(IdsIn(acked, key)) == set i | 0 <= i < n :: names[i]
    ensures (set p | p in acked && p.key == key && p.id in Excess(IdsIn(acked, key))) == Listed(key, names, n)
  {
    var ids := IdsIn(acked, key);
    SortedSetIsSorted(ids);
    var dropped := set p | p in acked && p.key == key && p.id in Excess(ids);
    forall p | p in Listed(key, names, n) ensures p in dropped {
      assert p.id in names;
      var q :| q in acked && q.key == key && q.id == p.id;
      assert q == p;
    }
    forall p | p in dropped ensures p in Listed(key, names, n) {
      var i :| 0 <= i < n && names[i] == p.id;
      assert p == Place(key, names[i]);
    }
  }
}
