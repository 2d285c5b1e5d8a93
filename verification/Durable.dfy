/**
 The two durable write routines, on a directory that can lose power at any moment.

 The directory remembers, for every name, each binding a crash may still bring back, and, for
 every file, whether its bytes have been forced out. A fault plan decides which operations
 fail. Every operation leaves a snapshot in `trace`, so "a crash at any step" is "a crash after
 any snapshot", and what a crash may leave is the relation `Survives`.
 */
module Durable {

  datatype Binding = Absent | File(id: nat)

  datatype Snapshot = Snapshot(
    live: map<string, nat>,
    unsure: map<string, set<Binding>>,   // names changed since the last directory sync: all their bindings since
    data: map<nat, string>,
    synced: set<nat>)

  function BindingIn(s: Snapshot, name: string): Binding {
    if name in s.live then File(s.live[name]) else Absent
  }

  /** The bindings of a name that a crash may leave. */
  function Possible(s: Snapshot, name: string): set<Binding> {
    if name in s.unsure then s.unsure[name] + {BindingIn(s, name)} else {BindingIn(s, name)}
  }

  /** What a restarted process finds: bindings and bytes. */
  datatype Recovered = Recovered(entries: map<string, nat>, data: map<nat, string>)

  /** Unsynced bytes may be lost or torn in any way; synced bytes may not. */
  ghost predicate Survives(s: Snapshot, r: Recovered) {
    && (forall name :: (if name in r.entries then File(r.entries[name]) else Absent) in Possible(s, name))
    && (forall name :: name in r.entries ==> r.entries[name] in r.data)
    && (forall id :: id in s.synced && id in s.data && id in r.data ==> r.data[id] == s.data[id])
  }

  datatype Content = Missing | Whole(text: string)

  function ReadBack(r: Recovered, name: string): Content {
    if name in r.entries && r.entries[name] in r.data then Whole(r.data[r.entries[name]]) else Missing
  }

  /** Every binding a crash may leave for this name is absent or a whole, forced-out file among `allowed`. */
  ghost predicate Holds(s: Snapshot, name: string, allowed: set<Content>) {
    forall b :: b in Possible(s, name) ==>
      match b
      case Absent => Missing in allowed
      case File(id) => id in s.synced && id in s.data && Whole(s.data[id]) in allowed
  }

  lemma HoldsAfterCrash(s: Snapshot, name: string, allowed: set<Content>, r: Recovered)
    requires Holds(s, name, allowed) && Survives(s, r)
    ensures ReadBack(r, name) in allowed
  {
    var b := if name in r.entries then File(r.entries[name]) else Absent;
    assert b in Possible(s, name);
  }

  predicate EndsWith(s: string, suffix: string) {
    |suffix| <= |s| && s[|s| - |suffix|..] == suffix
  }

  /** What every listing and every count looks at. */
  predicate IsListed(name: string) {
    EndsWith(name, ".json")
  }

  lemma ListedIff(name: string)
    ensures IsListed(name) <==> exists stem: string :: name == stem + ".json"
  {
    if EndsWith(name, ".json") {
      assert name == name[..|name| - 5] + ".json";
    }
  }

  function TempName(uuid: string): string {
    "." + uuid + ".tmp"
  }

  lemma TempIsNeverListed(uuid: string)
    ensures !IsListed(TempName(uuid))
  {
    var n := TempName(uuid);
    assert n[|n| - 5..][4] == n[|n| - 1] == 'p';
  }

  function Joined(chunks: seq<string>): string {
    if chunks == [] then "" else Joined(chunks[..|chunks| - 1]) + chunks[|chunks| - 1]
  }

  datatype Status = Done | Fault | Exists

  class Directory {
    var live: map<string, nat>
    var unsure: map<string, set<Binding>>
    var data: map<nat, string>
    var synced: set<nat>
    var ops: nat
    const plan: nat -> bool
    ghost var trace: seq<Snapshot>

    ghost function Now(): Snapshot
      reads this
    {
      Snapshot(live, unsure, data, synced)
    }

    ghost predicate Valid()
      reads this
    {
      && (forall name :: name in live ==> live[name] in data)
      && synced <= data.Keys
      && trace != [] && trace[|trace| - 1] == Now()
    }

    constructor (plan: nat -> bool)
      ensures Valid() && Now() == Snapshot(map[], map[], map[], {}) && trace == [Now()] && this.plan == plan
    {
      this.plan := plan;
      live, unsure, data, synced, ops := map[], map[], map[], {}, 0;
      trace := [Snapshot(map[], map[], map[], {})];
    }

    /** Each operation consults the plan once. */
    method Fails() returns (failed: bool)
      modifies this`ops
      ensures ops == old(ops) + 1 && failed == plan(old(ops))
    {
      failed := plan(ops);
      ops := ops + 1;
    }

    function Touched(name: string): map<string, set<Binding>>
      reads this
    {
      unsure[name := Possible(Snapshot(live, unsure, data, synced), name)]
    }

    /** `open(O_CREAT | O_EXCL)`. */
    method Open(name: string) returns (ok: bool, id: nat)
      requires Valid()
      modifies this
      ensures Valid()
      ensures !ok ==> Now() == old(Now()) && trace == old(trace)
      ensures ok ==> && trace == old(trace) + [Now()] && id !in old(data)
                     && Now() == Snapshot(old(live)[name := id], old(Touched(name)), old(data)[id := ""], old(synced))
    {
      var failed := Fails();
      id := 0;
      if failed || name in live { return false, 0; }
      ghost var ids := data.Keys;
      id := FreshId();
      unsure := Touched(name);
      live := live[name := id];
      data := data[id := ""];
      trace := trace + [Now()];
      ok := true;
    }

    method FreshId() returns (id: nat)
      ensures id !in data
    {
      id := 0;
      var left := data.Keys;
      while id in data
        invariant forall k :: k in left ==> k >= id
        invariant forall k :: k in data && k >= id ==> k in left
        decreases |left|
      {
        left := left - {id};
        id := id + 1;
      }
    }

    method Append(id: nat, chunk: string) returns (ok: bool)
      requires Valid() && id in data
      modifies this
      ensures Valid()
      ensures !ok ==> Now() == old(Now()) && trace == old(trace)
      ensures ok ==> && trace == old(trace) + [Now()]
                     && Now() == Snapshot(old(live), old(unsure), old(data)[id := old(data)[id] + chunk], old(synced) - {id})
    {
      var failed := Fails();
      if failed { return false; }
      data := data[id := data[id] + chunk];
      synced := synced - {id};
      trace := trace + [Now()];
      ok := true;
    }

    method Sync(id: nat) returns (ok: bool)
      requires Valid() && id in data
      modifies this
      ensures Valid()
      ensures !ok ==> Now() == old(Now()) && trace == old(trace)
      ensures ok ==> trace == old(trace) + [Now()] && Now() == Snapshot(old(live), old(unsure), old(data), old(synced) + {id})
    {
      var failed := Fails();
      if failed { return false; }
      synced := synced + {id};
      trace := trace + [Now()];
      ok := true;
    }

    /** `rename`: the target's old file is replaced, never missing in between. */
    method Rename(from: string, to: string) returns (ok: bool)
      requires Valid() && from in live && from != to
      modifies this
      ensures Valid()
      ensures !ok ==> Now() == old(Now()) && trace == old(trace)
      ensures ok ==> && trace == old(trace) + [Now()]
                     && Now() == Snapshot(old(live)[to := old(live)[from]] - {from},
                                          old(unsure)[from := Possible(old(Now()), from)][to := Possible(old(Now()), to)],
                                          old(data), old(synced))
    {
      var failed := Fails();
      if failed { return false; }
      ghost var s := Now();
      unsure := unsure[from := Possible(Snapshot(live, unsure, data, synced), from)][to := Possible(Snapshot(live, unsure, data, synced), to)];
      live := live[to := live[from]] - {from};
      trace := trace + [Now()];
      ok := true;
    }

    /** `link`: refuses a target that exists. */
    method Link(from: string, to: string) returns (status: Status)
      requires Valid() && from in live && from != to
      modifies this
      ensures Valid()
      ensures status != Done ==> Now() == old(Now()) && trace == old(trace)
      ensures status == Exists ==> to in old(live)
      ensures to in old(live) ==> status != Done
      ensures status == Done ==> && trace == old(trace) + [Now()]
                                 && Now() == Snapshot(old(live)[to := old(live)[from]], old(Touched(to)), old(data), old(synced))
    {
      var failed := Fails();
      if failed { return Fault; }
      if to in live { return Exists; }
      unsure := Touched(to);
      live := live[to := live[from]];
      trace := trace + [Now()];
      status := Done;
    }

    /** `rm` with `force`: an absent name is fine. */
    method Remove(name: string) returns (ok: bool)
      requires Valid()
      modifies this
      ensures Valid()
      ensures !ok ==> Now() == old(Now()) && trace == old(trace)
      ensures ok ==> && trace == old(trace) + [Now()]
                     && Now() == Snapshot(old(live) - {name}, old(Touched(name)), old(data), old(synced))
    {
      var failed := Fails();
      if failed { return false; }
      unsure := Touched(name);
      live := live - {name};
      trace := trace + [Now()];
      ok := true;
    }

    /** Directory `fsync`: every current binding is now the only one. */
    method SyncDirectory() returns (ok: bool)
      requires Valid()
      modifies this
      ensures Valid()
      ensures !ok ==> Now() == old(Now()) && trace == old(trace)
      ensures ok ==> trace == old(trace) + [Now()] && Now() == Snapshot(old(live), map[], old(data), old(synced))
    {
      var failed := Fails();
      if failed { return false; }
      unsure := map[];
      trace := trace + [Now()];
      ok := true;
    }

    /** Fill and force out a file just created. */
    method Fill(id: nat, chunks: seq<string>, ghost s0: Snapshot, ghost from: nat, ghost temp: string) returns (ok: bool)
      requires Valid() && id in data && data[id] == "" && id !in s0.data && from <= |trace|
      requires FramedSince(trace, from, s0, temp) && Framed(s0, Now(), {temp})
      modifies this
      ensures Valid() && old(trace) <= trace && FramedSince(trace, from, s0, temp) && Framed(s0, Now(), {temp})
      ensures live == old(live) && unsure == old(unsure)
      ensures ok ==> id in synced && id in data && data[id] == Joined(chunks)
    {
      ok := true;
      var n := 0;
      while n < |chunks| && ok
        invariant 0 <= n <= |chunks|
        invariant Valid() && old(trace) <= trace && FramedSince(trace, from, s0, temp) && Framed(s0, Now(), {temp})
        invariant live == old(live) && unsure == old(unsure)
        invariant id in data && data[id] == Joined(chunks[..n])
        decreases |chunks| - n, ok
      {
        ghost var s := Now();
        ok := Append(id, chunks[n]);
        if ok {
          FillIsFramed(s0, s, Now(), id, temp);
          FramedSinceGrows(trace[..|trace| - 1], trace, from, s0, temp);
          assert chunks[..n + 1][..n] == chunks[..n];
          n := n + 1;
        }
      }
      if ok {
        assert chunks[..n] == chunks;
        ghost var s := Now();
        ok := Sync(id);
        if ok {
          FillIsFramed(s0, s, Now(), id, temp);
          FramedSinceGrows(trace[..|trace| - 1], trace, from, s0, temp);
        }
      }
    }

    /** Clean up a temporary file as far as it can be. */
    method Discard(temp: string, ghost s0: Snapshot, ghost from: nat)
      requires Valid() && from <= |trace| && FramedSince(trace, from, s0, temp) && Framed(s0, Now(), {temp})
      modifies this
      ensures Valid() && old(trace) <= trace && FramedSince(trace, from, s0, temp) && Framed(s0, Now(), {temp})
      ensures forall n :: n != temp ==> BindingIn(Now(), n) == BindingIn(old(Now()), n)
    {
      ghost var s := Now();
      var removed := Remove(temp);
      if removed {
        UnlinkIsFramed(s0, s, Now(), temp);
        FramedSinceGrows(trace[..|trace| - 1], trace, from, s0, temp);
      }
    }

    method Create(temp: string) returns (ok: bool, id: nat)
      requires Valid() && temp !in live
      modifies this
      ensures Valid() && old(trace) <= trace
      ensures FramedSince(trace, |old(trace)|, old(Now()), temp) && Framed(old(Now()), Now(), {temp})
      ensures ok ==> temp in live && live[temp] == id && id !in old(data) && id in data && data[id] == ""
      ensures forall n :: n != temp ==> BindingIn(Now(), n) == BindingIn(old(Now()), n)
    {
      ghost var s0 := Now();
      ok, id := Open(temp);
      if ok {
        OpenIsFramed(s0, Now(), temp, id);
        FramedSinceGrows(trace[..|trace| - 1], trace, |old(trace)|, s0, temp);
      }
    }

    /** Create, fill and force out a temporary file; clean up on failure. */
    method Stage(temp: string, chunks: seq<string>) returns (ok: bool, id: nat)
      requires Valid() && temp !in live
      modifies this
      ensures Valid() && old(trace) <= trace
      ensures FramedSince(trace, |old(trace)|, old(Now()), temp)
      ensures Framed(old(Now()), Now(), {temp})
      ensures ok ==> && temp in live && live[temp] == id && id !in old(data)
                     && id in synced && id in data && data[id] == Joined(chunks)
      ensures forall n :: n != temp ==> BindingIn(Now(), n) == BindingIn(old(Now()), n)
    {
      ghost var s0 := Now();
      ghost var from := |trace|;
      ok, id := Create(temp);
      if !ok { return; }
      ok := Fill(id, chunks, s0, from, temp);
      if !ok {
        Discard(temp, s0, from);
      }
    }

    /** Temporary file, `fsync`, `rename`, directory `fsync`. */
    method WriteIntent(path: string, temp: string, chunks: seq<string>, ghost before: set<Content>) returns (ok: bool)
      requires Valid() && temp !in live && temp != path
      requires Holds(Now(), path, before)
      modifies this
      ensures Valid() && old(trace) <= trace
      ensures SafeSince(trace, |old(trace)|, old(Now()), path, temp, before + {Whole(Joined(chunks))})
      ensures Holds(Now(), path, if ok then {Whole(Joined(chunks))} else before + {Whole(Joined(chunks))})
    {
      ghost var s0 := Now();
      ghost var from := |trace|;
      ghost var text := Joined(chunks);
      ghost var allowed := before + {Whole(text)};
      var staged, id := Stage(temp, chunks);
      StagedIsSafe(trace, from, s0, path, temp, before);
      SafeSinceMore(trace, from, s0, path, temp, before, allowed);
      FramedHolds(s0, Now(), {temp}, path, before);
      if !staged {
        HoldsMore(Now(), path, before, allowed);
        return false;
      }
      ghost var s1 := Now();
      var renamed := Rename(temp, path);
      if !renamed {
        var removed := Remove(temp);
        if removed {
          RemoveIsSafe(s0, s1, Now(), temp, path, before);
          HoldsMore(Now(), path, before, allowed);
          SafeSinceGrows(trace[..|trace| - 1], trace, from, s0, path, temp, allowed);
        } else {
          HoldsMore(s1, path, before, allowed);
        }
        return false;
      }
      ghost var s2 := Now();
      RenameIsSafe(s0, s1, s2, temp, path, id, before, text);
      SafeSinceGrows(trace[..|trace| - 1], trace, from, s0, path, temp, allowed);
      ok := SyncDirectory();
      if ok {
        SyncIsSafe(s0, s2, Now(), temp, path, allowed);
        SafeSinceGrows(trace[..|trace| - 1], trace, from, s0, path, temp, allowed);
      }
    }

    /** Unlink the temporary name, then force the directory out. */
    method FinishLink(final: string, temp: string, ghost s0: Snapshot, ghost from: nat, ghost allowed: set<Content>, ghost text: string)
      returns (r: Written)
      requires Valid() && temp != final && from <= |trace|
      requires final in live && data[live[final]] == text
      requires Framed(s0, Now(), {temp, final}) && Holds(Now(), final, allowed)
      requires SafeSince(trace, from, s0, final, temp, allowed)
      modifies this
      ensures Valid() && old(trace) <= trace && r != Collided
      ensures SafeSince(trace, from, s0, final, temp, allowed) && Holds(Now(), final, allowed)
      ensures r == Landed ==> Holds(Now(), final, {Whole(text)})
    {
      ghost var s2 := Now();
      r := Failed;
      var removed := Remove(temp);
      if removed {
        ghost var s3 := Now();
        LinkedRemoveIsSafe(s0, s2, s3, temp, final, allowed);
        SafeSinceGrows(trace[..|trace| - 1], trace, from, s0, final, temp, allowed);
        var ok := SyncDirectory();
        if ok {
          SyncIsSafe(s0, s3, Now(), temp, final, allowed);
          SafeSinceGrows(trace[..|trace| - 1], trace, from, s0, final, temp, allowed);
          r := Landed;
        }
      }
    }

    /** `link` that never replaces, then the clean-up. */
    method LinkInto(final: string, temp: string, ghost s0: Snapshot, ghost from: nat, ghost before: set<Content>, ghost text: string)
      returns (r: Written)
      requires Valid() && temp in live && temp != final && from <= |trace|
      requires live[temp] in synced && data[live[temp]] == text
      requires Framed(s0, Now(), {temp}) && Holds(Now(), final, before)
      requires SafeSince(trace, from, s0, final, temp, before)
      modifies this
      ensures Valid() && old(trace) <= trace
      ensures r == Landed ==> final !in old(live) && Holds(Now(), final, {Whole(text)})
      ensures r == Collided ==> final in old(live)
      ensures final in old(live) ==> SafeSince(trace, from, s0, final, temp, before) && Holds(Now(), final, before)
      ensures SafeSince(trace, from, s0, final, temp, before + {Whole(text)}) && Holds(Now(), final, before + {Whole(text)})
    {
      ghost var s1 := Now();
      ghost var allowed := before + {Whole(text)};
      var status := Link(temp, final);
      if status == Done {
        SafeSinceMore(trace[..|trace| - 1], from, s0, final, temp, before, allowed);
        LinkIsSafe(s0, s1, Now(), temp, final, s1.live[temp], before, text);
        SafeSinceGrows(trace[..|trace| - 1], trace, from, s0, final, temp, allowed);
        r := FinishLink(final, temp, s0, from, allowed, text);
      } else {
        r := if status == Exists then Collided else Failed;
        var removed := Remove(temp);
        if removed {
          RemoveIsSafe(s0, s1, Now(), temp, final, before);
          SafeSinceGrows(trace[..|trace| - 1], trace, from, s0, final, temp, before);
        }
        HoldsMore(Now(), final, before, allowed);
        SafeSinceMore(trace, from, s0, final, temp, before, allowed);
      }
    }

    /** Temporary file, `fsync`, then the no-clobber `link`. */
    method WriteEventFile(final: string, temp: string, chunks: seq<string>, ghost before: set<Content>) returns (r: Written)
      requires Valid() && temp !in live && temp != final
      requires Holds(Now(), final, before)
      modifies this
      ensures Valid() && old(trace) <= trace
      // An existing file stays whole and byte-identical at every moment.
      ensures final in old(live) ==> r != Landed && SafeSince(trace, |old(trace)|, old(Now()), final, temp, before) && Holds(Now(), final, before)
      ensures SafeSince(trace, |old(trace)|, old(Now()), final, temp, before + {Whole(Joined(chunks))})
      ensures r == Collided ==> final in old(live)
      ensures Holds(Now(), final, if r == Landed then {Whole(Joined(chunks))} else before + {Whole(Joined(chunks))})
    {
      ghost var s0 := Now();
      ghost var from := |trace|;
      var staged, id := Stage(temp, chunks);
      StagedIsSafe(trace, from, s0, final, temp, before);
      FramedHolds(s0, Now(), {temp}, final, before);
      r := Failed;
      if staged {
        assert BindingIn(Now(), final) == BindingIn(s0, final);
        r := LinkInto(final, temp, s0, from, before, Joined(chunks));
      }
      if !staged {
        HoldsMore(Now(), final, before, before + {Whole(Joined(chunks))});
        SafeSinceMore(trace, from, s0, final, temp, before, before + {Whole(Joined(chunks))});
      }
    }
  }

  ghost predicate FramedSince(trace: seq<Snapshot>, from: nat, s0: Snapshot, temp: string) {
    forall k :: from <= k < |trace| ==> Framed(s0, trace[k], {temp})
  }

  lemma FramedSinceGrows(before: seq<Snapshot>, after: seq<Snapshot>, from: nat, s0: Snapshot, temp: string)
    requires FramedSince(before, from, s0, temp)
    requires |after| == |before| + 1 && after[..|before|] == before && Framed(s0, after[|before|], {temp})
    ensures FramedSince(after, from, s0, temp)
  {
    forall k | from <= k < |after| ensures Framed(s0, after[k], {temp}) {
      if k < |before| { assert after[k] == before[k]; }
    }
  }

  lemma OpenIsFramed(s0: Snapshot, t: Snapshot, temp: string, id: nat)
    requires id !in s0.data
    requires t == Snapshot(s0.live[temp := id], s0.unsure[temp := Possible(s0, temp)], s0.data[id := ""], s0.synced)
    ensures Framed(s0, t, {temp})
  {
    forall n | n != temp ensures Possible(t, n) == Possible(s0, n) {
    }
  }

  lemma FillIsFramed(s0: Snapshot, s: Snapshot, t: Snapshot, id: nat, temp: string)
    requires Framed(s0, s, {temp}) && id !in s0.data && id in s.data
    requires t.live == s.live && t.unsure == s.unsure
    requires t.data.Keys == s.data.Keys && forall k :: k in s.data && k != id ==> t.data[k] == s.data[k]
    requires s.synced - {id} <= t.synced
    ensures Framed(s0, t, {temp})
  {
    forall n ensures Possible(t, n) == Possible(s, n) {
    }
  }

  lemma UnlinkIsFramed(s0: Snapshot, s: Snapshot, t: Snapshot, temp: string)
    requires Framed(s0, s, {temp}) && t == Removed(s, temp)
    ensures Framed(s0, t, {temp})
  {
    forall n | n != temp ensures Possible(t, n) == Possible(s, n) {
    }
  }

  lemma SafeSinceMore(trace: seq<Snapshot>, from: nat, s0: Snapshot, name: string, temp: string, a: set<Content>, b: set<Content>)
    requires SafeSince(trace, from, s0, name, temp, a) && a <= b
    ensures SafeSince(trace, from, s0, name, temp, b)
  {
    forall k | from <= k < |trace| ensures Holds(trace[k], name, b) && Framed(s0, trace[k], {temp, name}) {
      HoldsMore(trace[k], name, a, b);
    }
  }

  /** After every operation from `from` on, `name` is whole and everything else is as it was. */
  ghost predicate SafeSince(trace: seq<Snapshot>, from: nat, s0: Snapshot, name: string, temp: string, allowed: set<Content>) {
    forall k :: from <= k < |trace| ==> Holds(trace[k], name, allowed) && Framed(s0, trace[k], {temp, name})
  }

  lemma SafeSinceGrows(before: seq<Snapshot>, after: seq<Snapshot>, from: nat, s0: Snapshot, name: string, temp: string, allowed: set<Content>)
    requires SafeSince(before, from, s0, name, temp, allowed)
    requires |after| == |before| + 1 && after[..|before|] == before
    requires Holds(after[|before|], name, allowed) && Framed(s0, after[|before|], {temp, name})
    ensures SafeSince(after, from, s0, name, temp, allowed)
  {
    forall k | from <= k < |after| ensures Holds(after[k], name, allowed) && Framed(s0, after[k], {temp, name}) {
      if k < |before| { assert after[k] == before[k]; }
    }
  }

  lemma HoldsMore(s: Snapshot, name: string, a: set<Content>, b: set<Content>)
    requires Holds(s, name, a) && a <= b
    ensures Holds(s, name, b)
  {
  }

  lemma StagedIsSafe(trace: seq<Snapshot>, from: nat, s0: Snapshot, name: string, temp: string, before: set<Content>)
    requires FramedSince(trace, from, s0, temp) && Holds(s0, name, before) && name != temp
    ensures SafeSince(trace, from, s0, name, temp, before)
  {
    forall k | from <= k < |trace| ensures Holds(trace[k], name, before) && Framed(s0, trace[k], {temp, name}) {
      FramedHolds(s0, trace[k], {temp}, name, before);
    }
  }

  ghost function Renamed(s: Snapshot, from: string, to: string): Snapshot
    requires from in s.live
  {
    Snapshot(s.live[to := s.live[from]] - {from}, s.unsure[from := Possible(s, from)][to := Possible(s, to)], s.data, s.synced)
  }

  ghost function Linked(s: Snapshot, from: string, to: string): Snapshot
    requires from in s.live
  {
    Snapshot(s.live[to := s.live[from]], s.unsure[to := Possible(s, to)], s.data, s.synced)
  }

  ghost function Removed(s: Snapshot, name: string): Snapshot {
    Snapshot(s.live - {name}, s.unsure[name := Possible(s, name)], s.data, s.synced)
  }

  lemma RenameIsSafe(s0: Snapshot, s: Snapshot, t: Snapshot, temp: string, name: string, id: nat, before: set<Content>, text: string)
    requires Framed(s0, s, {temp}) && Holds(s, name, before) && temp != name
    requires temp in s.live && s.live[temp] == id && id in s.synced && id in s.data && s.data[id] == text
    requires t == Renamed(s, temp, name)
    ensures Holds(t, name, before + {Whole(text)}) && Framed(s0, t, {temp, name}) && BindingIn(t, name) == File(id)
  {
    assert Possible(t, name) == Possible(s, name) + {File(id)};
    forall n | n !in {temp, name} ensures Possible(t, n) <= Possible(s0, n) {
      assert Possible(t, n) == Possible(s, n);
    }
  }

  lemma LinkIsSafe(s0: Snapshot, s: Snapshot, t: Snapshot, temp: string, name: string, id: nat, before: set<Content>, text: string)
    requires Framed(s0, s, {temp}) && Holds(s, name, before) && temp != name
    requires temp in s.live && s.live[temp] == id && id in s.synced && id in s.data && s.data[id] == text
    requires t == Linked(s, temp, name)
    ensures Holds(t, name, before + {Whole(text)}) && Framed(s0, t, {temp, name}) && BindingIn(t, name) == File(id)
  {
    assert Possible(t, name) == Possible(s, name) + {File(id)};
    forall n | n !in {temp, name} ensures Possible(t, n) <= Possible(s0, n) {
      assert Possible(t, n) == Possible(s, n);
    }
  }

  lemma RemoveIsSafe(s0: Snapshot, s: Snapshot, t: Snapshot, temp: string, name: string, before: set<Content>)
    requires Framed(s0, s, {temp}) && Holds(s, name, before) && temp != name && t == Removed(s, temp)
    ensures Holds(t, name, before) && Framed(s0, t, {temp, name})
  {
    forall n | n != temp ensures Possible(t, n) == Possible(s, n) {
    }
  }

  lemma LinkedRemoveIsSafe(s0: Snapshot, s: Snapshot, t: Snapshot, temp: string, name: string, allowed: set<Content>)
    requires Framed(s0, s, {temp, name}) && Holds(s, name, allowed) && temp != name && t == Removed(s, temp)
    ensures Holds(t, name, allowed) && Framed(s0, t, {temp, name}) && BindingIn(t, name) == BindingIn(s, name)
  {
    forall n | n != temp ensures Possible(t, n) == Possible(s, n) {
    }
  }

  lemma SyncIsSafe(s0: Snapshot, s: Snapshot, t: Snapshot, temp: string, name: string, allowed: set<Content>)
    requires Framed(s0, s, {temp, name}) && Holds(s, name, allowed) && t == Snapshot(s.live, map[], s.data, s.synced)
    ensures Holds(t, name, allowed) && Framed(s0, t, {temp, name})
    ensures BindingIn(s, name).File? && BindingIn(s, name).id in s.data ==> Holds(t, name, {Whole(s.data[BindingIn(s, name).id])})
  {
    forall n ensures Possible(t, n) <= Possible(s, n) {
    }
    assert BindingIn(s, name) in Possible(s, name);
  }

  datatype Written = Landed | Collided | Failed

  /** Outside some names nothing new can come back after a crash, and no existing file's bytes have changed. */
  ghost predicate Framed(s0: Snapshot, s: Snapshot, names: set<string>) {
    && (forall n :: n !in names ==> Possible(s, n) <= Possible(s0, n))
    && (forall id :: id in s0.data ==> id in s.data && s.data[id] == s0.data[id])
    && (forall id :: id in s0.synced && id in s0.data ==> id in s.synced)
  }

  /** Any other record stays exactly as safe as it was. */
  lemma FramedHolds(s0: Snapshot, s: Snapshot, names: set<string>, n: string, allowed: set<Content>)
    requires Framed(s0, s, names) && n !in names && Holds(s0, n, allowed)
    ensures Holds(s, n, allowed)
  {
  }

  /**
   Power lost at any moment of a write leaves the whole old or a whole new record under the
   written name, the listing of every other name as it was, and no temporary name in it.
   */
  lemma CrashMidWrite(trace: seq<Snapshot>, from: nat, k: nat, s0: Snapshot, name: string, uuid: string, allowed: set<Content>, r: Recovered)
    requires from <= k < |trace| && SafeSince(trace, from, s0, name, TempName(uuid), allowed)
    requires forall n :: n != name && IsListed(n) ==> Possible(s0, n) == {BindingIn(s0, n)}
    requires forall n :: n in s0.live && n != name && IsListed(n) ==> s0.live[n] in s0.synced && s0.live[n] in s0.data
    requires Survives(trace[k], r)
    ensures ReadBack(r, name) in allowed
    ensures forall n :: IsListed(n) && n != name ==> (n in r.entries <==> n in s0.live)
    ensures forall n :: IsListed(n) && n != name && n in s0.live ==> ReadBack(r, n) == Whole(s0.data[s0.live[n]])
    ensures !IsListed(TempName(uuid))
  {
    var s := trace[k];
    HoldsAfterCrash(s, name, allowed, r);
    TempIsNeverListed(uuid);
    forall n | IsListed(n) && n != name
      ensures n in r.entries <==> n in s0.live
      ensures n in s0.live ==> ReadBack(r, n) == Whole(s0.data[s0.live[n]])
    {
      assert Possible(s, n) <= Possible(s0, n);
      var b := if n in r.entries then File(r.entries[n]) else Absent;
      assert b in Possible(s, n);
      assert b == BindingIn(s0, n);
    }
  }
}
