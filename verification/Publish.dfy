/** Publishing a finished file under a destination name: the retry and recovery protocol
    of PublishCmd over a file system whose calls can fail and whose names other processes
    can change. */
module Publish {
  import opened TclValues

  type Path = string

  /** A file. Ours are the backup markers this process creates. */
  datatype FileId = Theirs(n: nat) | Ours(k: nat)

  /** What each name in reach names. */
  type Names = map<Path, FileId>

  datatype Kind = Regular | PlainDirectory | Special

  /** PublishFileInfo: the file a handle is on, and which of its two identities the
      system would tell. */
  datatype Info = Info(id: FileId, extended: bool, legacy: bool)

  datatype Handle = Handle(id: FileId)

  datatype Code = Missing | Exists | Sharing | OtherError

  datatype Probed = Absent | Unknown(code: Code) | Present(info: Info)

  /** same_identity_value. The two identities of a file are taken to name it alone. */
  predicate SameIdentity(l: Info, r: Info) {
    if l.extended && r.extended then l.id == r.id
    else l.legacy && r.legacy && l.id == r.id
  }

  /** What the environment does at each call. */
  datatype Outside = Outside(
    fails: nat -> bool,
    code: nat -> Code,
    mode: nat -> nat,
    sees: nat -> (bool, bool),
    others: nat -> Option<Names>,
    random: nat -> Path,
    kind: FileId -> Kind,
    volume: FileId -> nat)

  datatype Outcome =
    | Published
    | Refused
    | Failed(kept: Option<Path>)

  class FileSystem {
    const out: Outside
    var tick: nat
    var names: Names
    var made: nat

    /** Files a delete of ours has taken effect on, and which file each probe saw where. */
    ghost var deleted: seq<FileId>
    ghost var sightings: set<(Path, FileId)>

    constructor (out: Outside, names: Names)
      requires forall p :: p in names ==> names[p].Theirs?
      ensures this.out == out && this.names == names && made == 0 && deleted == [] && sightings == {}
    {
      this.out, this.names, tick, made, deleted, sightings := out, names, 0, 0, [], {};
    }

    /** No other process touches the names. */
    ghost predicate Quiet() {
      forall t :: out.others(t).None?
    }

    /** The system tells the same identities of a file every time. */
    ghost predicate Alike() {
      forall t :: out.sees(t) == out.sees(0)
    }

    /** What it then tells. */
    predicate Told(i: Info) {
      i.extended == out.sees(0).0 && i.legacy == out.sees(0).1 && (i.extended || i.legacy)
    }

    /** It tells one identity at least. */
    predicate Tells() {
      out.sees(0).0 || out.sees(0).1
    }

    /** What it tells of a file. */
    function Known(id: FileId): Info {
      Info(id, out.sees(0).0, out.sees(0).1)
    }

    /** No other process interferes, and the system tells the same of a file every time,
        by one identity or both. */
    ghost predicate Plain() {
      Quiet() && Alike() && Tells()
    }

    /** So it is, and no call from tick k on fails. */
    ghost predicate Clear(k: nat) {
      Plain() && forall t: nat :: k <= t ==> !out.fails(t)
    }

    /** So it is, and at most one call fails in all. */
    ghost predicate Single() {
      Plain() && forall s, t :: out.fails(s) && out.fails(t) ==> s == t
    }

    /** No other process interferes, the system tells the same every time if anything, and
        at most one call fails. */
    ghost predicate AtMostOneFails() {
      Quiet() && Alike() && forall s, t :: out.fails(s) && out.fails(t) ==> s == t
    }

    lemma ClearOn(k: nat)
      ensures Clear(k) ==> Clear(k + 1) && !out.fails(k)
      ensures Single() && out.fails(k) ==> Clear(k + 1)
    {
    }

    /** The random backup names are all free. */
    ghost predicate Spare()
      reads this
    {
      forall t :: out.random(t) !in names
    }

    predicate IsRegular(id: FileId) {
      id.Ours? || out.kind(id) == Regular
    }

    /** The next call: others may have been at work, and it may fail. */
    method Turn() returns (fails: bool, code: Code, t: nat)
      modifies this`tick, this`names
      ensures Quiet() ==> names == old(names)
      ensures t == old(tick) && fails == out.fails(t)
      ensures Clear(old(tick)) ==> Clear(tick) && !fails
      ensures Single() && fails ==> Clear(tick)
    {
      hide Clear, Single;
      ClearOn(tick);
      t := tick;
      tick := tick + 1;
      fails, code := out.fails(t), out.code(t);
      var others := out.others(t);
      if others.Some? { names := others.value; }
    }

    // ---- system calls -------------------------------------------------------------------

    lemma MostIsQuiet()
      ensures AtMostOneFails() ==> Quiet() && Alike()
    {
    }

    lemma TellsSingle()
      ensures AtMostOneFails() && Tells() ==> Single()
    {
    }

    lemma PlainToo(k: nat)
      ensures Single() || Clear(k) ==> Plain()
    {
    }

    method Query(h: Handle) returns (r: Option<Info>)
      modifies this`tick, this`names
      ensures Quiet() ==> names == old(names)
      ensures r.Some? ==> r.value.id == h.id && (Alike() ==> Told(r.value))
      ensures Plain() && r.Some? ==> r.value == Known(h.id)
      ensures Clear(old(tick)) ==> Clear(tick) && r.Some?
      ensures Single() && r.None? ==> Clear(tick)
    {
      hide Clear, Single;
      PlainToo(tick);
      var fails, code, t := Turn();
      var sees := out.sees(t);
      r := if fails || (!sees.0 && !sees.1) then None else Some(Info(h.id, sees.0, sees.1));
    }

    /** CreateFileW on an existing file. */
    method Open(p: Path) returns (r: Option<Handle>, code: Code)
      modifies this`tick, this`names
      ensures Quiet() ==> names == old(names)
      ensures r.Some? ==> p in names && r.value.id == names[p]
      ensures Clear(old(tick)) ==> Clear(tick) && (p in old(names) ==> r.Some?)
      ensures Single() && p in old(names) && r.None? ==> Clear(tick)
    {
      hide Clear, Single;
      PlainToo(tick);
      var fails, t;
      fails, code, t := Turn();
      if p !in names { return None, Missing; }
      if fails { return None, code; }
      r := Some(Handle(names[p]));
    }

    /** probe_path. */
    method Probe(p: Path) returns (r: Probed)
      modifies this`tick, this`names, this`sightings
      ensures Quiet() ==> names == old(names)
      ensures Quiet() && r.Present? ==> p in names && names[p] == r.info.id
      ensures Quiet() && r.Absent? ==> p !in names
      ensures old(sightings) <= sightings
      ensures r.Present? ==> (p, r.info.id) in sightings && (Alike() ==> Told(r.info))
      ensures Plain() && r.Present? ==> r.info == Known(names[p])
      ensures Clear(old(tick)) ==> Clear(tick) && !r.Unknown?
      ensures Single() && r.Unknown? ==> Clear(tick)
    {
      hide Clear, Single;
      PlainToo(tick);
      var fails, code, t := Turn();
      if p !in names {
        return if fails && code != Missing then Unknown(code) else Absent;
      }
      if fails { return Unknown(if code == Missing then OtherError else code); }
      var h := Handle(names[p]);
      var info := Query(h);
      if info.None? { return Unknown(OtherError); }
      sightings := sightings + {(p, h.id)};
      r := Present(info.value);
    }

    /** CreateFileW with CREATE_NEW. */
    method CreateNew(p: Path) returns (r: Option<Handle>, code: Code)
      modifies this`tick, this`names, this`made
      ensures Quiet() && r.Some? ==> p !in old(names) && names == old(names)[p := r.value.id]
      ensures r.None? ==> made == old(made) && (Quiet() ==> names == old(names))
      ensures r.Some? ==> r.value.id == Ours(old(made)) && made == old(made) + 1
      ensures Clear(old(tick)) ==> Clear(tick) && (p !in old(names) ==> r.Some?)
    {
      hide Clear, Single;
      PlainToo(tick);
      var fails, t;
      fails, code, t := Turn();
      if p in names { return None, Exists; }
      if fails { return None, code; }
      r := Some(Handle(Ours(made)));
      names := names[p := Ours(made)];
      made := made + 1;
    }

    /** DeleteFileW. */
    method DeletePath(p: Path)
      modifies this`tick, this`names
      ensures Quiet() ==> names == old(names) || names == old(names) - {p}
      ensures Clear(old(tick)) ==> Clear(tick) && names == old(names) - {p}
    {
      hide Clear, Single;
      PlainToo(tick);
      var fails, code, t := Turn();
      if !fails { names := names - {p}; }
    }

    /** MoveFileExW without flags: never onto an existing name. */
    method Move(src: Path, dst: Path) returns (ok: bool, code: Code)
      modifies this`tick, this`names
      ensures Quiet() && ok ==>
        src in old(names) && dst !in old(names) && names == (old(names) - {src})[dst := old(names)[src]]
      ensures Quiet() && !ok ==> names == old(names)
      ensures Clear(old(tick)) ==> Clear(tick) && (src in old(names) && dst !in old(names) ==> ok)
    {
      hide Clear, Single;
      PlainToo(tick);
      var fails, t;
      fails, code, t := Turn();
      if src !in names { return false, Missing; }
      if dst in names { return false, Exists; }
      if fails { return false, code; }
      names := (names - {src})[dst := names[src]];
      ok := true;
    }

    /** ReplaceFileW. When it fails both files keep their names, or the replaced one stands
        under the backup name and the replacement where it was. */
    method Replace(dest: Path, cand: Path, backup: Path) returns (ok: bool, code: Code)
      modifies this`tick, this`names
      ensures Quiet() && ok ==>
        dest in old(names) && cand in old(names)
        && names == (old(names) - {cand})[backup := old(names)[dest]][dest := old(names)[cand]]
      ensures Quiet() && !ok ==>
        || names == old(names)
        || names == old(names) - {backup}
        || (dest in old(names) && names == (old(names) - {dest})[backup := old(names)[dest]])
      ensures Clear(old(tick)) ==> Clear(tick) && (dest in old(names) && cand in old(names) ==> ok)
      ensures Single() && dest in old(names) && cand in old(names) && !ok ==> Clear(tick)
    {
      hide Clear, Single;
      PlainToo(tick);
      var fails, t;
      fails, code, t := Turn();
      if dest !in names || cand !in names { return false, Missing; }
      if fails {
        var mode := out.mode(t);
        if mode == 1 { names := names - {backup}; }
        else if mode == 2 { names := (names - {dest})[backup := names[dest]]; }
        return false, code;
      }
      names := (names - {cand})[backup := names[dest]][dest := names[cand]];
      ok := true;
    }

    // ---- deleting by handle -----------------------------------------------------------------

    /** delete_open_handle; `at` is the name the handle's file now has. */
    method DeleteOpenHandle(h: Handle, at: Path) returns (ok: bool)
      modifies this`tick, this`names, this`deleted
      ensures Quiet() ==>
        names == old(names) || (at in old(names) && old(names)[at] == h.id && names == old(names) - {at})
      ensures deleted == if ok then old(deleted) + [h.id] else old(deleted)
      ensures Quiet() && !ok ==> names == old(names)
      ensures Clear(old(tick)) ==> Clear(tick)
      ensures Clear(old(tick)) && IsRegular(h.id) && at in old(names) && old(names)[at] == h.id ==>
        names == old(names) - {at}
    {
      hide Clear, Single;
      PlainToo(tick);
      var info := Query(h);
      if info.None? || !IsRegular(info.value.id) { return false; }
      // clearing the read-only attribute, then setting the disposition
      var fails, code, t := Turn();
      if fails { return false; }
      fails, code, t := Turn();
      if fails { return false; }
      if at in names && names[at] == h.id { names := names - {at}; }
      deleted := deleted + [h.id];
      ok := true;
    }

    /** delete_identity: deletes what the path names only if it is the expected file. */
    method DeleteIdentity(path: Path, expected: Info) returns (removed: bool)
      modifies this`tick, this`names, this`deleted
      ensures Quiet() ==>
        names == old(names) || (path in old(names) && old(names)[path] == expected.id && names == old(names) - {path})
      ensures deleted == if removed then old(deleted) + [expected.id] else old(deleted)
      ensures Clear(old(tick)) ==> Clear(tick) && (old(Full(path, Some(expected))) ==> names == old(names) - {path})
    {
      hide Clear, Single;
      PlainToo(tick);
      var h, code := Open(path);
      if h.None? { return false; }
      var current := Query(h.value);
      if current.None? || !IsRegular(current.value.id) || !SameIdentity(current.value, expected) { return false; }
      removed := DeleteOpenHandle(h.value, path);
    }

    // ---- the steps of PublishCmd ------------------------------------------------------------

    /** backup_marker: a fresh hidden file under a random name. */
    method BackupMarker() returns (r: Option<(Path, Info)>)
      modifies this`tick, this`names, this`made
      ensures made >= old(made)
      ensures r.Some? ==> r.value.1.id.Ours? && old(made) <= r.value.1.id.k < made
      ensures Quiet() && r.Some? ==> r.value.0 !in old(names) && names == old(names)[r.value.0 := r.value.1.id]
      ensures Quiet() && r.None? ==> MarkersOnly(old(names), names, old(made), made)
      ensures Clear(old(tick)) ==> Clear(tick) && (old(Spare()) ==> r.Some?)
      ensures Plain() && r.Some? ==> r.value.1 == Known(r.value.1.id)
      ensures Single() && r.None? ==> names == old(names)
    {
      hide Clear, Single;
      PlainToo(tick);
      for attempt := 0 to 16
        invariant made == old(made) && (Quiet() ==> names == old(names))
        invariant Clear(old(tick)) ==> Clear(tick) && (old(Spare()) ==> attempt == 0)
      {
        var fails, code, t := Turn();
        if fails { return None; }
        var path := out.random(t);
        var h;
        h, code := CreateNew(path);
        if h.None? {
          if code == Exists { continue; }
          return None;
        }
        var info := Query(h.value);
        if info.None? {
          DeletePath(path);
          return None;
        }
        return Some((path, info.value));
      }
      r := None;
    }

    /** A regular file, and the expected one. */
    predicate Full(candidate: Path, expected: Option<Info>)
      reads this
    {
      && candidate in names && IsRegular(names[candidate])
      && (expected.Some? ==> expected.value == Known(names[candidate]))
    }

    /** check_candidate: a regular file that nobody writes, and still the one expected. */
    method CheckCandidate(candidate: Path, expected: Option<Info>) returns (r: Option<Info>)
      modifies this`tick, this`names, this`sightings
      ensures Quiet() ==> names == old(names)
      ensures Quiet() && r.Some? ==> candidate in names && names[candidate] == r.value.id
      ensures r.Some? && expected.Some? ==> r.value.id == expected.value.id
      ensures r.Some? && Alike() ==> Told(r.value)
      ensures Plain() && r.Some? ==> Full(candidate, r)
      ensures Clear(old(tick)) ==> Clear(tick) && (Full(candidate, expected) ==> r.Some?)
      ensures Single() && Full(candidate, expected) && r.None? ==> Clear(tick)
      ensures old(sightings) <= sightings
    {
      hide Clear, Single;
      PlainToo(tick);
      var p := Probe(candidate);
      if !p.Present? || !IsRegular(p.info.id) { return None; }
      if expected.Some? && !SameIdentity(expected.value, p.info) { return None; }
      r := Some(p.info);
    }

    predicate IsDirectory(id: FileId) {
      id.Theirs? && out.kind(id) == PlainDirectory
    }

    /** check_parent. */
    method CheckParent(parent: Path) returns (r: Option<Info>)
      modifies this`tick, this`names, this`sightings
      ensures Quiet() ==> names == old(names)
      ensures r.Some? ==> IsDirectory(r.value.id)
      ensures Plain() && r.Some? ==> parent in names && r == Some(Known(names[parent]))
      ensures Clear(old(tick)) ==> Clear(tick) && (parent in names && IsDirectory(names[parent]) ==> r.Some?)
      ensures old(sightings) <= sightings
    {
      hide Clear, Single;
      PlainToo(tick);
      var p := Probe(parent);
      r := if p.Present? && IsDirectory(p.info.id) then Some(p.info) else None;
    }

    /** check_destination: absent, or a regular file. */
    method CheckDestination(destination: Path) returns (r: Probed)
      modifies this`tick, this`names, this`sightings
      ensures Quiet() ==> names == old(names)
      ensures Quiet() && r.Present? ==> destination in names && names[destination] == r.info.id
      ensures Quiet() && r.Absent? ==> destination !in names
      ensures old(sightings) <= sightings
      ensures r.Present? ==> (destination, r.info.id) in sightings && (Alike() ==> Told(r.info))
      ensures Plain() && r.Present? ==> Full(destination, Some(r.info))
      ensures Clear(old(tick)) ==> Clear(tick) && (destination !in names ==> r == Absent)
      ensures Clear(old(tick)) && destination in names && IsRegular(names[destination]) ==> r.Present?
      ensures Single() && destination in names && IsRegular(names[destination]) && !r.Present? ==> Clear(tick)
    {
      hide Clear, Single;
      PlainToo(tick);
      r := Probe(destination);
      if r.Present? && !IsRegular(r.info.id) { r := Unknown(OtherError); }
    }

    /** Whether the two are known to be on one volume. */
    predicate SameVolume(l: Info, r: Info) {
      ((l.extended && r.extended) || (l.legacy && r.legacy)) && out.volume(l.id) == out.volume(r.id)
    }

    /** One of the states a failed replacement leaves: the old file still at the destination
        beside the marker or a free backup name, or set aside under the backup name. */
    predicate Recoverable(h: Handle, backup: Path, destination: Path, marker: Info)
      reads this
    {
      && IsRegular(h.id) && h.id != marker.id && backup != destination && marker == Known(marker.id)
      && if destination in names then names[destination] == h.id && (backup in names ==> names[backup] == marker.id)
         else backup in names && names[backup] == h.id
    }

    /** recover_replace_failure. It answers false, the code's zero, only if the destination
        names the old file; and it never loses it. */
    method Recover(h: Handle, backup: Path, destination: Path, marker: Info) returns (retained: bool)
      requires marker.id.Ours?
      modifies this`tick, this`names, this`sightings, this`deleted
      ensures old(sightings) <= sightings
      ensures deleted == old(deleted) || deleted == old(deleted) + [marker.id]
      ensures Quiet() && !retained ==> destination in names && names[destination] == h.id
      ensures Clear(old(tick)) ==> Clear(tick)
      ensures Clear(old(tick)) && old(Recoverable(h, backup, destination, marker)) ==>
        !retained && names == (old(names) - {backup})[destination := h.id]
      ensures Quiet() && backup != destination && h.id != marker.id ==>
        Recovered(old(names), names, h.id, backup, destination, marker.id)
    {
      hide Clear, Single;
      PlainToo(tick);
      var held := Query(h);
      if held.None? || !IsRegular(h.id) { return true; }
      var p := Probe(backup);
      if p.Unknown? { return true; }
      if p.Present? {
        if !IsRegular(p.info.id) { return true; }
        if SameIdentity(p.info, held.value) {
          var d := Probe(destination);
          if d.Absent? {
            var moved, code := Move(backup, destination);
            return !moved;
          }
          return true;
        }
        if !SameIdentity(p.info, marker) { return true; }
        var removed := DeleteIdentity(backup, marker);
        p := Probe(backup);
        if !p.Absent? { return true; }
      }
      var d := Probe(destination);
      retained := !(d.Present? && IsRegular(d.info.id) && SameIdentity(d.info, held.value));
    }

    /** Gives the marker back, if it is still there. */
    method DropMarker(backup: Path, marker: Info, destination: Path, ghost n0: Names, ghost k0: nat)
      requires marker.id.Ours? && k0 <= marker.id.k < made
      modifies this`tick, this`names, this`deleted
      ensures Cleaned(old(deleted), deleted, k0, made, {}, destination)
      ensures Quiet() && backup !in n0 && Fresh(n0, k0) && MarkersOnly(n0, old(names), k0, made) ==>
        MarkersOnly(n0, names, k0, made) && Fresh(names, made)
      ensures Clear(old(tick)) && marker == Known(marker.id) && Reserved(n0, old(names), backup, marker) ==> names == n0
    {
      hide Clear, Single, Fresh;
      PlainToo(tick);
      var removed := DeleteIdentity(backup, marker);
      StillFresh(n0, names, k0, made);
    }

    ghost predicate Calm(candidate: Path, destination: Path) {
      Quiet() && candidate != destination
    }

    /** One attempt at an existing destination: reserve a backup name, and go on. None means
        try again. */
    method TryReplace(candidate: Path, destination: Path, c: Info, d: Info) returns (r: Option<Outcome>)
      requires Calm(candidate, destination) ==>
        && Fresh(names, made) && candidate in names && names[candidate] == c.id
        && destination in names && names[destination] == d.id
      modifies this`tick, this`names, this`made, this`sightings, this`deleted
      ensures made >= old(made) && old(sightings) <= sightings
      ensures Calm(candidate, destination) ==>
        Left(old(names), names, candidate, destination, r, old(made), made) && Fresh(names, made)
      ensures var seen := if r == Some(Published) then sightings else {};
        Cleaned(old(deleted), deleted, old(made), made, seen, destination)
      ensures Single() && old(Full(candidate, Some(c)) && Full(destination, Some(d))) && candidate != destination ==>
        Tidy(old(names), names, candidate, destination, r)
      ensures Clear(old(tick)) && old(Spare() && Full(candidate, Some(c)) && Full(destination, Some(d))) ==>
        candidate != destination ==> r == Some(Published) && names == Exchanged(old(names), candidate, destination)
    {
      hide Fresh, MarkersOnly, Moved, SetAside, Clear, Single, Cleaned, Freed;
      PlainToo(tick);
      ghost var n0, k0 := names, made;
      var m := BackupMarker();
      if m.None? {
        MoreSeen(deleted, k0, made, {}, destination);
        StillFresh(n0, names, k0, made);
        return Some(Refused);
      }
      var (backup, marker) := m.value;
      ReservedMarker(n0, names, k0, made, backup, marker.id);
      if Calm(candidate, destination) { IsFreed(n0, names, k0, candidate, destination, d.id, backup, marker); }
      r := HoldAndSwap(candidate, destination, c, d, backup, marker, n0, k0);
    }

    /** Candidate and destination are as seen before, and the marker has been made. */
    predicate Poised(candidate: Path, destination: Path, c: Info, d: Info, backup: Path, marker: Info, n0: Names)
      reads this
    {
      && Full(candidate, Some(c)) && Full(destination, Some(d))
      && marker == Known(marker.id) && Freed(n0, names, candidate, destination, d.id, backup, marker)
    }

    /** The old file can be deleted by its handle, and the marker recognised. */
    predicate Held(h: Handle, marker: Info) {
      IsRegular(h.id) && marker == Known(marker.id)
    }

    /** With the marker in place: look again, hold the old file, replace. */
    method HoldAndSwap(candidate: Path, destination: Path, c: Info, d: Info, backup: Path, marker: Info,
                       ghost n0: Names, ghost k0: nat)
      returns (r: Option<Outcome>)
      requires marker.id.Ours? && k0 <= marker.id.k < made
      requires Calm(candidate, destination) ==>
        && Fresh(n0, k0) && backup !in n0 && names == n0[backup := marker.id]
        && candidate in n0 && n0[candidate] == c.id && destination in n0 && n0[destination] == d.id
      modifies this`tick, this`names, this`sightings, this`deleted
      ensures old(sightings) <= sightings
      ensures Calm(candidate, destination) ==>
        Left(n0, names, candidate, destination, r, k0, made) && Fresh(names, made)
      ensures Cleaned(old(deleted), deleted, k0, made, if r == Some(Published) then sightings else {}, destination)
      ensures Single() && old(Poised(candidate, destination, c, d, backup, marker, n0)) ==>
        Tidy(n0, names, candidate, destination, r)
      ensures Clear(old(tick)) && old(Poised(candidate, destination, c, d, backup, marker, n0)) ==>
        r == Some(Published) && names == Exchanged(n0, candidate, destination)
    {
      hide Fresh, MarkersOnly, Moved, SetAside, Clear, Single, Cleaned, Exchanged;
      PlainToo(tick);
      ReservedMarker(n0, names, k0, made, backup, marker.id);
      var final := CheckCandidate(candidate, Some(c));
      if final.None? {
        DropMarker(backup, marker, destination, n0, k0);
        return Some(Refused);
      }
      var f := CheckDestination(destination);
      if !f.Present? || !SameIdentity(d, f.info) {
        DropMarker(backup, marker, destination, n0, k0);
        return if f.Unknown? then Some(Refused) else None;
      }
      var h, code := Open(destination);
      if h.None? {
        DropMarker(backup, marker, destination, n0, k0);
        return if code == Missing then None else Some(Failed(None));
      }
      var held := Query(h.value);
      if held.None? || !IsRegular(held.value.id) || !SameIdentity(held.value, f.info) {
        DropMarker(backup, marker, destination, n0, k0);
        return if held.None? then Some(Failed(None)) else None;
      }
      r := Swap(candidate, destination, h.value, backup, marker, n0, k0);
    }

    /** ReplaceFileW, and the clearing up after it, whichever way it went. */
    method Swap(candidate: Path, destination: Path, h: Handle, backup: Path, marker: Info,
                ghost n0: Names, ghost k0: nat)
      returns (r: Option<Outcome>)
      requires marker.id.Ours? && k0 <= marker.id.k < made && (destination, h.id) in sightings
      requires Calm(candidate, destination) ==>
        && Fresh(n0, k0) && backup !in n0 && names == n0[backup := marker.id]
        && candidate in n0 && destination in n0 && n0[destination] == h.id
      modifies this`tick, this`names, this`sightings, this`deleted
      ensures old(sightings) <= sightings
      ensures Calm(candidate, destination) ==>
        Left(n0, names, candidate, destination, r, k0, made) && Fresh(names, made)
      ensures Cleaned(old(deleted), deleted, k0, made, if r == Some(Published) then sightings else {}, destination)
      ensures Single() && Held(h, marker) && Freed(n0, old(names), candidate, destination, h.id, backup, marker) ==>
        Tidy(n0, names, candidate, destination, r)
      ensures Held(h, marker) && Freed(n0, old(names), candidate, destination, h.id, backup, marker) ==>
        Clear(old(tick)) ==> r == Some(Published) && names == Exchanged(n0, candidate, destination)
    {
      hide Fresh, MarkersOnly, Recovered, Moved, SetAside, Clear, Single, Exchanged, Tidy;
      PlainToo(tick);
      ghost var n1 := names;
      if Calm(candidate, destination) { MarkerIsNew(n0, k0, destination, backup, marker.id); }
      var ok, code := Replace(destination, candidate, backup);
      ghost var n2 := names;
      if ok {
        var gone := DeleteOpenHandle(h, backup);
        if Calm(candidate, destination) {
          Replaced(n0, n1, n2, names, k0, made, candidate, destination, backup, marker.id);
          ReplacedTidily(n0, n1, n2, names, candidate, destination, h.id, backup, marker);
        }
        return Some(Published);
      }
      if Calm(candidate, destination) { StillRecoverable(n0, n1, n2, candidate, destination, h.id, backup, marker); }
      var retained := Recover(h, backup, destination, marker);
      r := if code == Missing && !retained then None else Some(Failed(if retained then Some(backup) else None));
      if Calm(candidate, destination) {
        Retained(n0, n1, n2, names, k0, made, candidate, destination, backup, marker.id, retained);
        RestoredTidily(n0, candidate, destination, r);
      }
    }

    ghost predicate Steady(candidate: Path, destination: Path) {
      Quiet() && (candidate != destination || Alike())
    }

    /** One turn of the retry loop. None means the destination changed under us. */
    method Attempt(candidate: Path, destination: Path, c: Info, dp: Info) returns (t: Option<Outcome>)
      requires Steady(candidate, destination) ==> Fresh(names, made) && candidate in names && names[candidate] == c.id
      requires Alike() ==> Told(c)
      modifies this`tick, this`names, this`made, this`sightings, this`deleted
      ensures made >= old(made)
      ensures Steady(candidate, destination) ==>
        Left(old(names), names, candidate, destination, t, old(made), made) && Fresh(names, made)
      ensures Steady(candidate, destination) && t.None? && destination !in old(names) ==> destination !in names
      ensures var seen := if t == Some(Published) then sightings else {};
        Cleaned(old(deleted), deleted, old(made), made, seen, destination)
      ensures Single() && old(candidate in names && names[candidate] == c.id) && c == Known(c.id) ==>
        Tidy(old(names), names, candidate, destination, t)
      ensures Clear(old(tick)) && old(Spare()) && old(Ready(candidate, destination, c, dp)) ==>
        t == Some(Published) && names == Exchanged(old(names), candidate, destination)
    {
      hide Fresh, MarkersOnly, Moved, SetAside, Cleaned, Clear, Single;
      PlainToo(tick);
      ghost var n0 := names;
      NothingYet(names, made, deleted, destination);
      var cur := CheckCandidate(candidate, Some(c));
      if cur.None? { return Some(Refused); }
      var d := CheckDestination(destination);
      if d.Unknown? { return Some(Refused); }
      if d.Absent? {
        var ok, code := Move(candidate, destination);
        if ok {
          if Quiet() { MovedThere(n0, names, made, candidate, destination); }
          MoreSeen(deleted, made, made, sightings, destination);
          return Some(Published);
        }
        return if code == Exists then None else Some(Failed(None));
      }
      if SameIdentity(cur.value, d.info) || !SameVolume(d.info, dp) { return Some(Refused); }
      t := TryReplace(candidate, destination, c, d.info);
    }

    /** Ready to be published: two different regular files, or one and a free name. */
    predicate Ready(candidate: Path, destination: Path, c: Info, dp: Info)
      reads this
    {
      && Full(candidate, Some(c)) && dp == Known(dp.id)
      && (destination in names ==>
            && candidate != destination
            && IsRegular(names[destination]) && names[destination] != c.id
            && out.volume(names[destination]) == out.volume(dp.id))
    }

    /** Candidate, destination and their directories are as PublishCmd asks. */
    predicate Publishable(candidate: Path, destination: Path, candidateParent: Path, destinationParent: Path)
      reads this
    {
      && candidate in names
      && candidateParent in names && IsDirectory(names[candidateParent])
      && destinationParent in names && IsDirectory(names[destinationParent])
      && out.volume(names[candidate]) == out.volume(names[destinationParent])
      && Ready(candidate, destination, Known(names[candidate]), Known(names[destinationParent]))
    }

    /** PublishCmd. */
    method PublishFile(candidate: Path, destination: Path, candidateParent: Path, destinationParent: Path)
      returns (r: Outcome)
      requires Quiet() ==> Fresh(names, made)
      modifies this`tick, this`names, this`made, this`sightings, this`deleted
      ensures Steady(candidate, destination) ==>
        Left(old(names), names, candidate, destination, Some(r), old(made), made)
      ensures Cleaned(old(deleted), deleted, old(made), made, if r == Published then sightings else {}, destination)
      ensures AtMostOneFails() ==> Tidy(old(names), names, candidate, destination, Some(r))
      ensures old(Spare() && Publishable(candidate, destination, candidateParent, destinationParent)) ==>
        Clear(old(tick)) ==> r == Published && names == Exchanged(old(names), candidate, destination)
    {
      hide Fresh, MarkersOnly, Moved, SetAside, Cleaned, Clear, Single, AtMostOneFails;
      PlainToo(tick);
      MostIsQuiet();
      ghost var n0, k0, gone := names, made, deleted;
      NothingYet(names, made, deleted, destination);
      var c := CheckCandidate(candidate, None);
      if c.None? { return Refused; }
      TellsSingle();
      var cp := CheckParent(candidateParent);
      if cp.None? { return Refused; }
      var dp := CheckParent(destinationParent);
      if dp.None? || !SameVolume(c.value, dp.value) { return Refused; }
      ghost var ready := Ready(candidate, destination, c.value, dp.value);
      ghost var steady := Steady(candidate, destination);
      for attempt := 0 to 8
        invariant made >= k0 && Cleaned(gone, deleted, k0, made, {}, destination)
        invariant steady ==> MarkersOnly(n0, names, k0, made) && Fresh(names, made)
        invariant steady ==> candidate in names && names[candidate] == c.value.id && candidate in n0
        invariant steady && destination in names ==> destination in n0
        invariant Single() ==> names == n0 && candidate in n0 && c.value == Known(n0[candidate])
        invariant Clear(old(tick)) && old(Spare()) && ready ==> attempt == 0 && names == n0 && Clear(tick)
      {
        ghost var n1, k1, gone1 := names, made, deleted;
        var t := Attempt(candidate, destination, c.value, dp.value);
        if steady { LeftThrough(n0, n1, names, candidate, destination, t, k0, k1, made); }
        CleanedThrough(gone, gone1, deleted, k0, k1, made, if t == Some(Published) then sightings else {}, destination);
        if t.Some? { return t.value; }
        Stays(n1, names, k1, made, candidate);
      }
      r := Failed(None);
    }
  }

  /** The names once published, with nothing left over. */
  function Exchanged(m: Names, candidate: Path, destination: Path): Names {
    if candidate in m then (m - {candidate})[destination := m[candidate]] else m
  }

  /** What is left when at most one call failed: published, or everything as it was; the
      replaced file may outstay the call under a name that was free. */
  ghost predicate Tidy(m: Names, n: Names, candidate: Path, destination: Path, r: Option<Outcome>) {
    match r
    case Some(Published) =>
      candidate in m
      && (n == Exchanged(m, candidate, destination)
          || (destination in m
              && exists b :: b !in m && n == Exchanged(m, candidate, destination)[b := m[destination]]))
    case Some(Failed(Some(_))) => false
    case _ => n == m
  }

  /** The names just before the replacement: as at first, and the marker. */
  predicate Freed(n0: Names, n1: Names, candidate: Path, destination: Path, was: FileId, backup: Path,
                  marker: Info) {
    && Reserved(n0, n1, backup, marker) && candidate != destination
    && candidate in n0 && destination in n0 && n0[destination] == was && was != marker.id
  }

  /** A free name has been given to a marker. */
  predicate Reserved(n0: Names, n1: Names, backup: Path, marker: Info) {
    backup !in n0 && n1 == n0[backup := marker.id]
  }

  lemma IsFreed(n0: Names, n1: Names, k0: nat, candidate: Path, destination: Path, was: FileId,
                backup: Path, marker: Info)
    requires marker.id.Ours? && k0 <= marker.id.k
    requires candidate != destination && candidate in n0 && destination in n0 && n0[destination] == was
    ensures Fresh(n0, k0) && Reserved(n0, n1, backup, marker) ==>
      Freed(n0, n1, candidate, destination, was, backup, marker)
  {
  }

  lemma ReplacedTidily(n0: Names, n1: Names, n2: Names, n3: Names,
                       candidate: Path, destination: Path, was: FileId, backup: Path, marker: Info)
    requires candidate != destination && candidate in n1 && destination in n1
    requires n2 == (n1 - {candidate})[backup := n1[destination]][destination := n1[candidate]]
    requires n3 == n2 || n3 == n2 - {backup}
    ensures Freed(n0, n1, candidate, destination, was, backup, marker) ==>
      && Tidy(n0, n3, candidate, destination, Some(Published))
      && backup in n2 && n2[backup] == was
      && (n3 == n2 - {backup} ==> n3 == Exchanged(n0, candidate, destination))
  {
    if Freed(n0, n1, candidate, destination, was, backup, marker) {
      assert n2 - {backup} == Exchanged(n0, candidate, destination);
      assert n2 == Exchanged(n0, candidate, destination)[backup := n0[destination]];
    }
  }

  /** Each state a failed replacement leaves can be put right, and then is as at first. */
  lemma StillRecoverable(n0: Names, n1: Names, n2: Names,
                         candidate: Path, destination: Path, was: FileId, backup: Path, marker: Info)
    requires
      || n2 == n1 || n2 == n1 - {backup}
      || (destination in n1 && n2 == (n1 - {destination})[backup := n1[destination]])
    ensures Freed(n0, n1, candidate, destination, was, backup, marker) ==>
      && was != marker.id && backup != destination
      && (if destination in n2 then n2[destination] == was && (backup in n2 ==> n2[backup] == marker.id)
          else backup in n2 && n2[backup] == was)
      && (n2 - {backup})[destination := was] == n0
  {
  }

  lemma RestoredTidily(n: Names, candidate: Path, destination: Path, r: Option<Outcome>)
    ensures r == None || r == Some(Failed(None)) ==> Tidy(n, n, candidate, destination, r)
  {
  }

  lemma Stays(m: Names, n: Names, k0: nat, k1: nat, p: Path)
    ensures MarkersOnly(m, n, k0, k1) && p in m ==> p in n && n[p] == m[p]
  {
  }

  lemma MarkerIsNew(n0: Names, k0: nat, destination: Path, backup: Path, marker: FileId)
    requires Fresh(n0, k0) && destination in n0 && backup !in n0 && marker.Ours? && k0 <= marker.k
    ensures n0[destination] != marker && backup != destination
  {
  }

  /** n is m, but for names given to markers k0 .. k1-1. */
  predicate MarkersOnly(m: Names, n: Names, k0: nat, k1: nat) {
    && (forall p :: p in m ==> p in n && n[p] == m[p])
    && (forall p :: p in n && p !in m ==> n[p].Ours? && k0 <= n[p].k < k1)
  }

  /** Recovery took the marker away, put the old file back, or did nothing. */
  predicate Recovered(m: Names, n: Names, was: FileId, backup: Path, destination: Path, marker: FileId) {
    || n == m
    || (backup in m && m[backup] == marker && n == m - {backup})
    || (backup in m && m[backup] == was && destination !in m && n == (m - {backup})[destination := was])
  }

  /** Markers not made yet have no name. */
  predicate Fresh(n: Names, made: nat) {
    forall p :: p in n && n[p].Ours? ==> n[p].k < made
  }

  /** The candidate has moved to the destination; every other name stands, and a new one is
      a marker's or the replaced file's. */
  predicate Moved(m: Names, n: Names, candidate: Path, destination: Path, k0: nat, k1: nat) {
    && candidate in m && candidate !in n && destination in n && n[destination] == m[candidate]
    && (forall p :: p in m && p != candidate && p != destination ==> p in n && n[p] == m[p])
    && (forall p :: p in n && p !in m && p != destination ==>
          (n[p].Ours? && k0 <= n[p].k < k1) || (destination in m && n[p] == m[destination]))
  }

  /** The old destination is under the backup name, everything else where it was. */
  predicate SetAside(m: Names, n: Names, destination: Path, backup: Path, k0: nat, k1: nat) {
    && destination in m && backup !in m && backup in n && n[backup] == m[destination]
    && (forall p :: p in m && p != destination ==> p in n && n[p] == m[p])
    && (forall p :: p in n && p !in m && p != backup ==> n[p].Ours? && k0 <= n[p].k < k1)
    && (destination in n ==> n[destination] == m[destination])
  }

  /** What an attempt leaves of the names. */
  predicate Left(m: Names, n: Names, candidate: Path, destination: Path, r: Option<Outcome>, k0: nat, k1: nat) {
    match r
    case Some(Published) => Moved(m, n, candidate, destination, k0, k1)
    case Some(Failed(Some(b))) => MarkersOnly(m, n, k0, k1) || SetAside(m, n, destination, b, k0, k1)
    case _ => MarkersOnly(m, n, k0, k1)
  }

  /** Every delete took a marker of this call, or, once published, a file seen at the
      destination. */
  ghost predicate Cleaned(before: seq<FileId>, after: seq<FileId>, k0: nat, k1: nat, seen: set<(Path, FileId)>,
                          destination: Path)
  {
    && |before| <= |after| && after[..|before|] == before
    && forall i :: |before| <= i < |after| ==>
         (after[i].Ours? && k0 <= after[i].k < k1) || (destination, after[i]) in seen
  }

  lemma StillFresh(m: Names, n: Names, k0: nat, k1: nat)
    ensures Fresh(m, k0) && MarkersOnly(m, n, k0, k1) && k0 <= k1 ==> Fresh(n, k1)
  {
  }

  lemma ReservedMarker(m: Names, n: Names, k0: nat, k1: nat, backup: Path, marker: FileId)
    requires marker.Ours? && k0 <= marker.k < k1
    ensures backup !in m && n == m[backup := marker] ==> MarkersOnly(m, n, k0, k1)
  {
  }

  lemma Replaced(n0: Names, n1: Names, n2: Names, n3: Names,
                 k0: nat, k1: nat, candidate: Path, destination: Path, backup: Path, marker: FileId)
    requires Fresh(n0, k0) && marker.Ours? && k0 <= marker.k < k1
    requires backup !in n0 && n1 == n0[backup := marker]
    requires candidate in n0 && destination in n0 && candidate != destination
    requires n2 == (n1 - {candidate})[backup := n1[destination]][destination := n1[candidate]]
    requires n3 == n2 || n3 == n2 - {backup}
    ensures Moved(n0, n3, candidate, destination, k0, k1) && Fresh(n3, k1)
  {
  }

  lemma {:induction false} Retained(n0: Names, n1: Names, n2: Names, n3: Names,
                 k0: nat, k1: nat, candidate: Path, destination: Path, backup: Path, marker: FileId, retained: bool)
    requires Fresh(n0, k0) && marker.Ours? && k0 <= marker.k < k1
    requires backup !in n0 && n1 == n0[backup := marker]
    requires candidate in n0 && destination in n0 && candidate != destination
    requires n2 == n1 || n2 == n1 - {backup} || n2 == (n1 - {destination})[backup := n1[destination]]
    requires Recovered(n2, n3, n0[destination], backup, destination, marker)
    requires !retained ==> destination in n3 && n3[destination] == n0[destination]
    ensures MarkersOnly(n0, n3, k0, k1) || SetAside(n0, n3, destination, backup, k0, k1)
    ensures !retained ==> MarkersOnly(n0, n3, k0, k1)
    ensures Fresh(n3, k1)
  {
  }

  lemma NothingYet(n: Names, k: nat, deleted: seq<FileId>, destination: Path)
    ensures MarkersOnly(n, n, k, k) && Cleaned(deleted, deleted, k, k, {}, destination)
  {
  }

  lemma MoreSeen(deleted: seq<FileId>, k0: nat, k1: nat, seen: set<(Path, FileId)>, destination: Path)
    ensures Cleaned(deleted, deleted, k0, k1, seen, destination)
  {
  }

  lemma CleanedThrough(a: seq<FileId>, b: seq<FileId>, c: seq<FileId>, k0: nat, k1: nat, k2: nat,
                       seen: set<(Path, FileId)>, destination: Path)
    requires Cleaned(a, b, k0, k1, {}, destination) && Cleaned(b, c, k1, k2, seen, destination) && k0 <= k1 <= k2
    ensures Cleaned(a, c, k0, k2, seen, destination)
  {
    assert c[..|a|] == c[..|b|][..|a|];
  }

  lemma MovedThere(n1: Names, n2: Names, k: nat, candidate: Path, destination: Path)
    requires candidate in n1 && destination !in n1
    requires n2 == (n1 - {candidate})[destination := n1[candidate]]
    ensures Moved(n1, n2, candidate, destination, k, k)
    ensures Fresh(n1, k) ==> Fresh(n2, k)
  {
  }

  /** What an attempt leaves, seen from the start. */
  lemma LeftThrough(n0: Names, n1: Names, n2: Names, candidate: Path, destination: Path,
                    r: Option<Outcome>, k0: nat, k1: nat, k2: nat)
    requires MarkersOnly(n0, n1, k0, k1) && Left(n1, n2, candidate, destination, r, k1, k2) && k0 <= k1 <= k2
    requires candidate in n0 && (destination in n1 ==> destination in n0)
    ensures Left(n0, n2, candidate, destination, r, k0, k2)
  {
  }
}
