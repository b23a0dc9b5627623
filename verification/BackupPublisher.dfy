/**
 The LND channel-backup publisher (internal/installer/lnd_backup_export_linux.go): it copies
 a file that LND may rewrite at any moment, proves from stat records and a second read that
 what it copied is what the file held all along, and shows it under the final name in one
 rename.
 */
module BackupPublisher {
  import opened Basics

  newtype byte = x: int | 0 <= x < 256

  // The inode metadata that the publisher checks. Permission bits only.
  datatype Meta = Meta(regular: bool, links: nat, uid: int, gid: int, mode: bv9)

  datatype Inode = Inode(content: seq<byte>, meta: Meta, mtime: nat, ctime: nat)

  // What sameSourceSnapshot compares: snapshots are the same iff all of it is.
  datatype Stat = Stat(ino: nat, size: nat, meta: Meta, mtime: nat, ctime: nat)

  datatype Identity = Identity(lndUid: int, lndGid: int, backupGid: int)

  const MAX_TEMP_NAME_TRIES: nat := 16

  function StatOf(ino: nat, node: Inode): Stat {
    Stat(ino, |node.content|, node.meta, node.mtime, node.ctime)
  }

  // validateSourceStat: nobody but the owner may write it.
  predicate ValidSource(m: Meta, ids: Identity) {
    m.regular && m.links == 1 && m.uid == ids.lndUid && m.gid == ids.lndGid && m.mode & 0x12 == 0
  }

  // validatePublishedStat: mode 0640.
  predicate ValidPublished(m: Meta, ids: Identity) {
    m.regular && m.links == 1 && m.uid == ids.lndUid && m.gid == ids.backupGid && m.mode == 0x1A0
  }

  // What an exclusive creation gives: mode 0600.
  function TempMeta(ids: Identity): Meta {
    Meta(true, 1, ids.lndUid, ids.lndGid, 0x180)
  }

  /* ---- Time ---- */

  // One instant: all inodes, the inode at the source path, the bytes at the final name.
  datatype Instant = Instant(inodes: map<nat, Inode>, source: Option<nat>, final: Option<seq<byte>>)

  // Files come and are changed, and every change moves the change time on.
  predicate Later(a: map<nat, Inode>, b: map<nat, Inode>) {
    forall i | i in a :: i in b && a[i].ctime <= b[i].ctime && (a[i].ctime == b[i].ctime ==> a[i] == b[i])
  }

  ghost predicate Chronicle(past: seq<Instant>) {
    forall t | 0 < t < |past| :: Later(past[t - 1].inodes, past[t].inodes)
  }

  // The final name shows what it showed when `a` ended, all through the rest of `b`.
  ghost predicate SameShown(a: seq<Instant>, b: seq<Instant>) {
    && 0 < |a| && a <= b
    && forall t | |a| <= t < |b| :: b[t].final == a[|a| - 1].final
  }

  // At every instant from `start` on, the final name is the old file or the whole new one.
  ghost predicate OldOrNew(past: seq<Instant>, start: nat, before: Option<seq<byte>>, bytes: seq<byte>) {
    forall t | start <= t < |past| :: past[t].final == before || past[t].final == Some(bytes)
  }

  // The file was one and the same throughout an interval.
  ghost predicate Constant(past: seq<Instant>, ino: nat, from: nat, to: nat, node: Inode) {
    to < |past| && forall t | from <= t <= to :: ino in past[t].inodes && past[t].inodes[ino] == node
  }

  lemma {:induction false} LaterThroughout(past: seq<Instant>, i: nat, j: nat)
    requires Chronicle(past) && i <= j < |past|
    ensures Later(past[i].inodes, past[j].inodes)
    decreases j - i
  {
    if i < j {
      LaterThroughout(past, i, j - 1);
      assert Later(past[j - 1].inodes, past[j].inodes);
    }
  }

  // Two equal change times prove that nothing happened in between.
  lemma EqualStatsProveConstancy(past: seq<Instant>, ino: nat, from: nat, to: nat)
    requires Chronicle(past) && from <= to < |past|
    requires ino in past[from].inodes && ino in past[to].inodes
    ensures StatOf(ino, past[from].inodes[ino]) == StatOf(ino, past[to].inodes[ino])
      <==> Constant(past, ino, from, to, past[from].inodes[ino])
  {
    LaterThroughout(past, from, to);
    if past[from].inodes[ino].ctime == past[to].inodes[ino].ctime {
      forall t | from <= t <= to ensures ino in past[t].inodes && past[t].inodes[ino] == past[from].inodes[ino] {
        LaterThroughout(past, from, t);
        LaterThroughout(past, t, to);
      }
    }
  }

  /* ---- The file system, with LND writing into it ---- */

  datatype Lookup = Absent | Found(st: Stat) | LookupFailed

  datatype Creation = Created(ino: nat) | Exists | CreateFailed

  class Disk {
    var inodes: map<nat, Inode>
    var source: Option<nat>        // the inode at LND's backup path
    var final: Option<nat>         // the inode at the published name
    var stage: map<string, nat>    // the private stage directory
    var writes: nat                // writes LND will still make
    var calm: bool
    var killed: bool
    const lockFree: bool
    const sameDevice: bool
    var kept: set<nat>             // files of the publisher's directories: LND stays out
    ghost var past: seq<Instant>

    constructor (inodes: map<nat, Inode>, source: Option<nat>, final: Option<nat>, stage: map<string, nat>,
                 kept: set<nat>, writes: nat, lockFree: bool, sameDevice: bool)
      requires (source.Some? ==> source.value in inodes) && (final.Some? ==> final.value in kept)
      requires kept <= inodes.Keys && forall n | n in stage :: stage[n] in kept
      ensures Valid() && fresh(this)
      ensures this.inodes == inodes && this.source == source && this.final == final && this.stage == stage
    {
      this.inodes, this.source, this.final, this.stage := inodes, source, final, stage;
      this.writes, calm, killed := writes, *, false;
      this.lockFree, this.sameDevice := lockFree, sameDevice;
      this.kept := kept;
      past := [Instant(inodes, source, if final.Some? then Some(inodes[final.value].content) else None)];
    }

    // The names lead to files.
    ghost predicate Linked()
      reads this`source, this`final, this`stage, this`kept, this`inodes
    {
      && (source.Some? ==> source.value in inodes)
      && (final.Some? ==> final.value in kept)
      && (forall n | n in stage :: stage[n] in kept)
      && kept <= inodes.Keys
    }

    ghost predicate Valid()
      reads this
    {
      Linked() && |past| > 0 && past[|past| - 1] == Now() && Chronicle(past)
    }

    // The present joins the past.
    ghost method Note()
      requires Linked() && |past| > 0 && Chronicle(past) && Later(past[|past| - 1].inodes, inodes)
      modifies this`past
      ensures Valid() && past == old(past) + [Now()]
    {
      past := past + [Now()];
    }

    ghost function Now(): Instant
      reads this
      requires final.Some? ==> final.value in inodes
    {
      Instant(inodes, source, if final.Some? then Some(inodes[final.value].content) else None)
    }

    // Time has passed; of the files LND stays out of, only those in `changed` may differ.
    twostate predicate Elapsed(changed: set<nat>)
      reads this
      requires old(Valid())
    {
      && Valid() && Later(old(inodes), inodes) && writes <= old(writes) && old(kept) <= kept
      && (old(killed) ==> killed)
      && forall i | i in old(kept) && i !in changed :: inodes[i] == old(inodes[i])
    }

    // Nothing fails and LND writes nothing.
    predicate Quiet()
      reads this
    {
      calm && !killed && writes == 0
    }

    method PutInode(ino: nat, node: Inode)
      requires Valid() && final != Some(ino) && (ino in inodes ==> inodes[ino].ctime < node.ctime)
      modifies this`inodes, this`past
      ensures Valid() && inodes == old(inodes)[ino := node] && Later(old(inodes), inodes)
      ensures SameShown(old(past), past)
    {
      inodes := inodes[ino := node];
      Note();
    }

    // LND may change any of its files, replace its backup, or do nothing.
    method Interfere()
      requires Valid()
      modifies this`inodes, this`source, this`writes, this`past
      ensures Elapsed({})
      ensures SameShown(old(past), past) && |past| == |old(past)| + 1
      ensures writes == old(writes) ==> inodes == old(inodes) && source == old(source)
    {
      var next: map<nat, Inode>, path: Option<nat> := *, *;
      if
        && writes > 0 && Later(inodes, next)
        && (forall i | i in kept :: next[i] == inodes[i])
        && (path.Some? ==> path.value in next)
      {
        inodes, source, writes := next, path, writes - 1;
      }
      Note();
    }

    // Whether the next call takes effect and whether it reports success.
    method Attempt() returns (acts: bool, ok: bool)
      modifies this`killed
      ensures ok ==> acts && !killed
      ensures old(killed) ==> killed && !acts
      ensures calm && !old(killed) ==> ok && !killed
    {
      acts, ok := !killed, !killed;
      if !killed && !calm {
        acts, ok, killed := *, *, *;
        ok := ok && acts && !killed;
      }
    }

    // A call whose effect is not part of this model, or an injected fault on its own.
    method Look() returns (ok: bool)
      requires Valid()
      modifies this`inodes, this`source, this`writes, this`past, this`killed
      ensures Elapsed({}) && SameShown(old(past), past)
      ensures old(killed) ==> !ok
      ensures old(Quiet()) ==> ok && Quiet() && inodes == old(inodes) && source == old(source)
    {
      Interfere();
      var acts;
      acts, ok := Attempt();
    }

    method OpenSource() returns (ino: Option<nat>)
      requires Valid()
      modifies this`inodes, this`source, this`writes, this`past, this`killed
      ensures Elapsed({}) && SameShown(old(past), past)
      ensures ino.Some? ==> ino.value in inodes && source == ino
      ensures old(killed) ==> ino == None
      ensures old(Quiet()) ==> ino == source && Quiet() && inodes == old(inodes) && source == old(source)
    {
      var ok := Look();
      ino := if ok then source else None;
    }

    // fstat, of this instant.
    method Fstat(ino: nat) returns (st: Option<Stat>)
      requires Valid() && ino in inodes
      modifies this`inodes, this`source, this`writes, this`past, this`killed
      ensures Elapsed({}) && SameShown(old(past), past)
      ensures st.Some? ==> st.value == StatOf(ino, inodes[ino])
      ensures old(killed) ==> st == None
      ensures old(Quiet()) ==> st.Some? && Quiet() && inodes == old(inodes) && source == old(source)
    {
      var ok := Look();
      st := if ok then Some(StatOf(ino, inodes[ino])) else None;
    }

    // fstatat without following links; `published` picks the final name over the source.
    method StatName(published: bool) returns (r: Lookup)
      requires Valid()
      modifies this`inodes, this`source, this`writes, this`past, this`killed
      ensures Elapsed({}) && SameShown(old(past), past)
      ensures var name := if published then final else source;
              && (r.Absent? ==> name == None)
              && (r.Found? ==> name.Some? && name.value in inodes && r.st == StatOf(name.value, inodes[name.value]))
      ensures old(killed) ==> r == LookupFailed
      ensures old(Quiet()) ==> r != LookupFailed && Quiet() && inodes == old(inodes) && source == old(source)
    {
      var ok := Look();
      var name := if published then final else source;
      if !ok {
        r := LookupFailed;
      } else if name == None {
        r := Absent;
      } else {
        r := Found(StatOf(name.value, inodes[name.value]));
      }
    }

    // read at an offset: a nonempty piece, or nothing at the end of the file.
    method Read(ino: nat, off: nat) returns (piece: Option<seq<byte>>)
      requires Valid() && ino in inodes
      modifies this`inodes, this`source, this`writes, this`past, this`killed
      ensures Elapsed({}) && SameShown(old(past), past)
      ensures var content := inodes[ino].content;
              piece.Some? ==>
                if off < |content| then piece.value != [] && off + |piece.value| <= |content| &&
                                        piece.value == content[off..off + |piece.value|]
                else piece.value == []
      ensures writes == old(writes) ==> inodes == old(inodes)
      ensures old(killed) ==> piece == None
      ensures old(Quiet()) ==> piece.Some? && Quiet() && inodes == old(inodes) && source == old(source)
    {
      Interfere();
      var acts, ok := Attempt();
      var content := inodes[ino].content;
      var n: int := *;
      if !ok {
        piece := None;
      } else if off >= |content| {
        piece := Some([]);
      } else if 0 < n && off + n <= |content| {
        piece := Some(content[off..off + n]);
      } else {
        piece := Some(content[off..]);
      }
    }

    method AddTemp(name: string, node: Inode) returns (ino: nat)
      requires Valid() && name !in stage
      modifies this`inodes, this`past, this`stage, this`kept
      ensures Valid() && Later(old(inodes), inodes) && SameShown(old(past), past)
      ensures ino !in old(inodes) && inodes == old(inodes)[ino := node]
      ensures kept == old(kept) + {ino} && stage == old(stage)[name := ino]
    {
      ghost var unused := Bound(inodes.Keys);
      assert unused !in inodes;
      ino :| ino !in inodes;
      PutInode(ino, node);
      stage := stage[name := ino];
      kept := kept + {ino};
    }

    // Creates an empty file of mode 0600 under a name nobody holds. Only a kill separates
    // the file from the report.
    method CreateTemp(name: string, ids: Identity) returns (r: Creation)
      requires Valid()
      modifies this`inodes, this`source, this`writes, this`past, this`killed, this`stage, this`kept
      ensures Elapsed({}) && SameShown(old(past), past)
      ensures r.Exists? ==> name in stage && stage == old(stage)
      ensures r.Created? ==> r.ino !in old(inodes) && r.ino in kept && inodes[r.ino].content == [] && !killed
      ensures r.Created? ==> name !in old(stage) && stage == old(stage)[name := r.ino]
      ensures r.Created? ==> inodes[r.ino].meta == TempMeta(ids)
      ensures !r.Created? && !killed ==> stage == old(stage)
      ensures stage == old(stage) || (name !in old(stage) && name in stage && stage == old(stage)[name := stage[name]])
      ensures old(killed) ==> r == CreateFailed && stage == old(stage)
      ensures old(Quiet()) ==>
        Quiet() && (if name in old(stage) then r.Exists? else r.Created?) && source == old(source) &&
        forall i | i in old(inodes) :: inodes[i] == old(inodes[i])
    {
      Interfere();
      var acts, ok := Attempt();
      if ok && name in stage {
        return Exists;
      }
      if name in stage || !(ok || (acts && killed)) {
        return CreateFailed;
      }
      var ino := AddTemp(name, Inode([], TempMeta(ids), 0, 0));
      r := if ok then Created(ino) else CreateFailed;
    }

    // Changes one of the publisher's files: all of it or nothing, and the report may lie.
    method Change(ino: nat, content: seq<byte>, meta: Meta) returns (ok: bool)
      requires Valid() && ino in kept && final != Some(ino)
      modifies this`inodes, this`source, this`writes, this`past, this`killed
      ensures Elapsed({ino}) && SameShown(old(past), past)
      ensures ok ==> inodes[ino].content == content && inodes[ino].meta == meta
      ensures writes == old(writes) ==>
        forall i | i in inodes && i != ino :: i in old(inodes) && inodes[i] == old(inodes[i])
      ensures old(killed) ==> !ok
      ensures old(Quiet()) ==> ok && Quiet() && source == old(source)
    {
      Interfere();
      var acts;
      acts, ok := Attempt();
      if acts {
        var node := inodes[ino];
        PutInode(ino, Inode(content, meta, node.mtime + 1, node.ctime + 1));
      }
    }

    // write: a failing one may still have appended part of the piece.
    method Append(ino: nat, piece: seq<byte>) returns (ok: bool)
      requires Valid() && ino in kept && final != Some(ino)
      modifies this`inodes, this`source, this`writes, this`past, this`killed
      ensures Elapsed({ino}) && SameShown(old(past), past)
      ensures ok ==> inodes[ino].content == old(inodes[ino].content) + piece
      ensures ok ==> inodes[ino].meta == old(inodes[ino].meta)
      ensures writes == old(writes) ==>
        forall i | i in inodes && i != ino :: i in old(inodes) && inodes[i] == old(inodes[i])
      ensures old(killed) ==> !ok
      ensures old(Quiet()) ==> ok && Quiet() && source == old(source)
    {
      var node := inodes[ino];
      var part: int := *;
      if !calm && 0 <= part < |piece| {
        ok := Change(ino, node.content + piece[..part], node.meta);
        return false;
      }
      ok := Change(ino, node.content + piece, node.meta);
    }

    // rename into the final directory replaces the final name in one instant.
    method Rename(name: string) returns (ok: bool)
      requires Valid() && name in stage
      modifies this`inodes, this`source, this`writes, this`past, this`killed, this`stage, this`final
      ensures Elapsed({}) && old(past) <= past
      ensures OldOrNew(past, |old(past)|, old(Now()).final, inodes[old(stage[name])].content)
      ensures
        || (final == old(final) && stage == old(stage))
        || (final == Some(old(stage[name])) && stage == old(stage) - {name})
      ensures ok ==> final == Some(old(stage[name])) && stage == old(stage) - {name}
      ensures old(killed) ==> !ok
      ensures old(Quiet()) ==> ok && Quiet() && inodes == old(inodes) && source == old(source)
    {
      Interfere();
      var acts;
      acts, ok := Attempt();
      if acts {
        final := Some(stage[name]);
        stage := stage - {name};
        Note();
      }
    }

    // The next run of the service: LND may make any number of further writes meanwhile.
    method Restart(calm: bool)
      requires Valid()
      modifies this`writes, this`calm, this`killed
      ensures Valid() && !killed && this.calm == calm && (calm ==> writes == 0)
    {
      var budget: int := *;
      writes := if calm || budget < 0 then 0 else budget;
      this.calm, killed := calm, false;
    }

    // unlink; a name that is gone already is no error.
    method Unlink(name: string) returns (ok: bool)
      requires Valid()
      modifies this`inodes, this`source, this`writes, this`past, this`killed, this`stage
      ensures Elapsed({}) && SameShown(old(past), past)
      ensures stage == old(stage) || stage == old(stage) - {name}
      ensures ok ==> name !in stage
      ensures old(killed) ==> !ok
      ensures old(Quiet()) ==> ok && Quiet() && inodes == old(inodes) && source == old(source)
    {
      Interfere();
      var acts;
      acts, ok := Attempt();
      if acts {
        stage := stage - {name};
        Note();
      }
    }
  }

  lemma {:induction false} Bound(s: set<nat>) returns (n: nat)
    ensures forall x | x in s :: x < n
  {
    n := 0;
    if s != {} {
      var x :| x in s;
      var m := Bound(s - {x});
      n := if m <= x then x + 1 else m;
      forall y | y in s ensures y < n {
        assert y == x || y in s - {x};
      }
    }
  }

  /* ---- Copying a file that may change under the reader ---- */

  // As long as the change time has not moved, `got` is how the file begins.
  ghost predicate Reads(disk: Disk, ino: nat, node: Inode, got: seq<byte>)
    reads disk`inodes
  {
    && ino in disk.inodes && node.ctime <= disk.inodes[ino].ctime
    && (node.ctime == disk.inodes[ino].ctime ==> disk.inodes[ino] == node && got <= node.content)
  }

  // How much the reader still has before it.
  ghost function Ahead(disk: Disk, ino: nat, off: nat): nat
    reads disk`inodes
    requires ino in disk.inodes
  {
    if off < |disk.inodes[ino].content| then |disk.inodes[ino].content| - off else 0
  }

  // io.Copy into a digest, which here is the bytes themselves.
  method Drain(disk: Disk, ino: nat) returns (got: Option<seq<byte>>)
    requires disk.Valid() && ino in disk.inodes
    modifies disk`inodes, disk`source, disk`writes, disk`past, disk`killed
    ensures disk.Elapsed({}) && SameShown(old(disk.past), disk.past)
    ensures got.Some? && disk.inodes[ino].ctime == old(disk.inodes[ino].ctime) ==>
      got.value == old(disk.inodes[ino].content)
    ensures old(disk.Quiet()) ==>
      got.Some? && disk.Quiet() && disk.inodes == old(disk.inodes) && disk.source == old(disk.source)
  {
    ghost var node := disk.inodes[ino];
    var bytes := [];
    while true
      invariant disk.Elapsed({}) && SameShown(old(disk.past), disk.past)
      invariant old(disk.Quiet()) ==> disk.Quiet() && disk.inodes == old(disk.inodes) && disk.source == old(disk.source)
      invariant Reads(disk, ino, node, bytes)
      decreases disk.writes, Ahead(disk, ino, |bytes|)
    {
      var piece := disk.Read(ino, |bytes|);
      if piece == None {
        return None;
      }
      if piece.value == [] {
        return Some(bytes);
      }
      bytes := bytes + piece.value;
    }
  }

  // One piece of the copy. `before` is what was copied already, and the file as it was when
  // the copy began is `node`.
  method CopyPiece(disk: Disk, ino: nat, temp: nat, before: seq<byte>, ghost node: Inode)
    returns (ok: bool, copied: seq<byte>)
    requires disk.Valid() && temp in disk.kept && temp != ino && disk.final != Some(temp)
    requires Reads(disk, ino, node, before) && disk.inodes[temp].content == before
    modifies disk`inodes, disk`source, disk`writes, disk`past, disk`killed
    ensures disk.Elapsed({temp}) && SameShown(old(disk.past), disk.past)
    ensures ok ==> disk.inodes[temp].content == copied && disk.inodes[temp].meta == old(disk.inodes[temp].meta)
    ensures ok ==> Reads(disk, ino, node, copied)
    ensures ok && copied == before && disk.inodes[ino].ctime == node.ctime ==> copied == node.content
    ensures ok && copied != before && disk.writes == old(disk.writes) ==>
      Ahead(disk, ino, |copied|) < old(Ahead(disk, ino, |before|))
    ensures old(disk.Quiet()) ==>
      ok && disk.Quiet() && disk.source == old(disk.source) && disk.inodes[ino] == old(disk.inodes[ino])
  {
    copied := before;
    var piece := disk.Read(ino, |before|);
    if piece == None || piece.value == [] {
      return piece.Some?, copied;
    }
    copied := before + piece.value;
    assert copied != before;
    ok := disk.Append(temp, piece.value);
  }

  // io.Copy from the source into the temporary and a digest.
  method CopyToTemp(disk: Disk, ino: nat, temp: nat) returns (ok: bool, copied: seq<byte>)
    requires disk.Valid() && ino in disk.inodes && temp in disk.kept && temp != ino && disk.final != Some(temp)
    requires disk.inodes[temp].content == []
    modifies disk`inodes, disk`source, disk`writes, disk`past, disk`killed
    ensures disk.Elapsed({temp}) && SameShown(old(disk.past), disk.past)
    ensures ok ==> disk.inodes[temp].content == copied && disk.inodes[temp].meta == old(disk.inodes[temp].meta)
    ensures ok && disk.inodes[ino].ctime == old(disk.inodes[ino].ctime) ==> copied == old(disk.inodes[ino].content)
    ensures old(disk.Quiet()) ==>
      ok && disk.Quiet() && disk.source == old(disk.source) && disk.inodes[ino] == old(disk.inodes[ino])
  {
    ghost var node := disk.inodes[ino];
    copied := [];
    while true
      invariant disk.Elapsed({temp}) && SameShown(old(disk.past), disk.past)
      invariant disk.inodes[temp].content == copied && disk.inodes[temp].meta == old(disk.inodes[temp].meta)
      invariant old(disk.Quiet()) ==> disk.Quiet() && disk.source == old(disk.source) && disk.inodes[ino] == node
      invariant Reads(disk, ino, node, copied)
      decreases disk.writes, Ahead(disk, ino, |copied|)
    {
      var before := copied;
      ok, copied := CopyPiece(disk, ino, temp, before, node);
      if !ok || copied == before {
        return;
      }
    }
  }

  /* ---- Publication ---- */

  // A temporary file of this run: where it is and what it is called.
  datatype Temp = Temp(name: string, ino: nat)

  predicate SafeTempName(name: string) {
    ".channel.backup.tmp-" <= name && '/' !in name
  }

  // The generator hands out a free name before any unsafe one.
  predicate NameFree(names: seq<string>, stage: map<string, nat>) {
    names != [] && SafeTempName(names[0]) && (names[0] !in stage || NameFree(names[1..], stage))
  }

  // Nothing fails, LND writes nothing, and its backup is still the one first seen.
  ghost predicate Calm(disk: Disk, ids: Identity, initial: Stat)
    reads disk
  {
    && disk.Quiet() && disk.source == Some(initial.ino) && ValidSource(initial.meta, ids)
    && initial.ino in disk.inodes && StatOf(initial.ino, disk.inodes[initial.ino]) == initial
  }

  // One exclusive creation; a name that could lead out of the stage is refused.
  method TryCreate(disk: Disk, ids: Identity, name: string, ghost initial: Stat) returns (r: Creation)
    requires disk.Valid()
    modifies disk`inodes, disk`source, disk`writes, disk`past, disk`killed, disk`stage, disk`kept
    ensures disk.Elapsed({}) && SameShown(old(disk.past), disk.past) && AtMostOneMore(old(disk.stage), disk.stage)
    ensures r.Created? ==>
      && r.ino !in old(disk.inodes) && r.ino in disk.kept && disk.inodes[r.ino].content == []
      && disk.inodes[r.ino].meta == TempMeta(ids)
      && name !in old(disk.stage) && disk.stage == old(disk.stage)[name := r.ino]
    ensures r.Exists? || (r.CreateFailed? && !disk.killed) ==> disk.stage == old(disk.stage)
    ensures old(Calm(disk, ids, initial)) ==>
      && Calm(disk, ids, initial)
      && (r.Created? <==> SafeTempName(name) && name !in old(disk.stage))
      && (r.Exists? <==> SafeTempName(name) && name in old(disk.stage))
  {
    var ok := disk.Look();
    if !ok || !SafeTempName(name) {
      return CreateFailed;
    }
    r := disk.CreateTemp(name, ids);
  }

  // Up to sixteen exclusive creations under fresh names.
  method CreateExclusive(disk: Disk, ids: Identity, names: seq<string>, ghost initial: Stat)
    returns (temp: Option<Temp>)
    requires disk.Valid() && |names| == MAX_TEMP_NAME_TRIES
    modifies disk`inodes, disk`source, disk`writes, disk`past, disk`killed, disk`stage, disk`kept
    ensures disk.Elapsed({}) && SameShown(old(disk.past), disk.past)
    ensures temp.Some? ==>
      var t := temp.value;
      && t.ino !in old(disk.inodes) && t.ino in disk.kept && disk.inodes[t.ino].content == []
      && disk.inodes[t.ino].meta == TempMeta(ids)
      && t.name !in old(disk.stage) && disk.stage == old(disk.stage)[t.name := t.ino]
    ensures temp == None && !disk.killed ==> disk.stage == old(disk.stage)
    ensures AtMostOneMore(old(disk.stage), disk.stage)
    ensures old(Calm(disk, ids, initial)) ==>
      Calm(disk, ids, initial) && (temp.Some? <==> NameFree(names, old(disk.stage)))
  {
    for attempt := 0 to MAX_TEMP_NAME_TRIES
      invariant disk.Elapsed({}) && SameShown(old(disk.past), disk.past)
      invariant disk.stage == old(disk.stage)
      invariant old(Calm(disk, ids, initial)) ==> Calm(disk, ids, initial)
      invariant old(Calm(disk, ids, initial)) ==>
        NameFree(names, disk.stage) == NameFree(names[attempt..], disk.stage)
    {
      assert names[attempt..][1..] == names[attempt + 1..];
      var r := TryCreate(disk, ids, names[attempt], initial);
      match r {
        case Exists =>
        case CreateFailed => return None;
        case Created(ino) => return Some(Temp(names[attempt], ino));
      }
    }
    temp := None;
  }

  // The stage directory lost nothing and gained at most one name.
  predicate AtMostOneMore(before: map<string, nat>, after: map<string, nat>) {
    after == before || exists n | n in after :: n !in before && after == before[n := after[n]]
  }

  // The temporary gets the backup group, its final mode, and a check of both and of its size.
  method FinishTemp(disk: Disk, ids: Identity, initial: Stat, temp: nat, copied: seq<byte>) returns (ok: bool)
    requires disk.Valid() && temp in disk.kept && disk.final != Some(temp) && temp != initial.ino
    requires disk.inodes[temp].content == copied && disk.inodes[temp].meta == TempMeta(ids)
    modifies disk`inodes, disk`source, disk`writes, disk`past, disk`killed
    ensures disk.Elapsed({temp}) && SameShown(old(disk.past), disk.past)
    ensures ok ==> disk.inodes[temp].content == copied && ValidPublished(disk.inodes[temp].meta, ids)
    ensures old(Calm(disk, ids, initial)) ==> ok && Calm(disk, ids, initial)
  {
    ok := disk.Change(temp, copied, disk.inodes[temp].meta.(gid := ids.backupGid));
    if !ok { return; }
    ok := disk.Change(temp, copied, disk.inodes[temp].meta.(mode := 0x1A0));
    if !ok { return; }
    var st := disk.Fstat(temp);
    ok := st.Some? && ValidPublished(st.value.meta, ids) && st.value.size == |copied|;
  }

  // verifySourceSnapshot.
  method VerifySourceSnapshot(disk: Disk, ids: Identity, initial: Stat) returns (ok: bool)
    requires disk.Valid() && initial.ino in disk.inodes
    modifies disk`inodes, disk`source, disk`writes, disk`past, disk`killed
    ensures disk.Elapsed({}) && SameShown(old(disk.past), disk.past)
    ensures ok ==> StatOf(initial.ino, disk.inodes[initial.ino]) == initial
    ensures old(Calm(disk, ids, initial)) ==> ok && Calm(disk, ids, initial)
  {
    var st := disk.Fstat(initial.ino);
    ok := st == Some(initial);
  }

  // verifySourcePath.
  method VerifySourcePath(disk: Disk, ids: Identity, initial: Stat) returns (ok: bool)
    requires disk.Valid()
    modifies disk`inodes, disk`source, disk`writes, disk`past, disk`killed
    ensures disk.Elapsed({}) && SameShown(old(disk.past), disk.past)
    ensures ok ==>
      && disk.source == Some(initial.ino) && initial.ino in disk.inodes
      && StatOf(initial.ino, disk.inodes[initial.ino]) == initial
    ensures old(Calm(disk, ids, initial)) ==> ok && Calm(disk, ids, initial)
  {
    var r := disk.StatName(false);
    ok := r.Found? && ValidSource(r.st.meta, ids) && r.st == initial;
  }

  // The second read must give the bytes of the first.
  method Reread(disk: Disk, ids: Identity, initial: Stat, copied: seq<byte>) returns (ok: bool)
    requires disk.Valid() && initial.ino in disk.inodes
    modifies disk`inodes, disk`source, disk`writes, disk`past, disk`killed
    ensures disk.Elapsed({}) && SameShown(old(disk.past), disk.past)
    ensures ok && disk.inodes[initial.ino].ctime == old(disk.inodes[initial.ino].ctime) ==>
      copied == old(disk.inodes[initial.ino].content)
    ensures old(Calm(disk, ids, initial)) && old(disk.inodes[initial.ino].content) == copied ==>
      ok && Calm(disk, ids, initial)
  {
    ok := disk.Look();
    if !ok { return; }
    var again := Drain(disk, initial.ino);
    ok := again == Some(copied);
  }

  // The source is stat'ed, read again and stat'ed twice more, the last time by its name.
  method ConfirmSource(disk: Disk, ids: Identity, initial: Stat, copied: seq<byte>) returns (ok: bool)
    requires disk.Valid() && initial.ino in disk.inodes
    modifies disk`inodes, disk`source, disk`writes, disk`past, disk`killed
    ensures disk.Elapsed({}) && SameShown(old(disk.past), disk.past)
    ensures ok ==> disk.source == Some(initial.ino) && StatOf(initial.ino, disk.inodes[initial.ino]) == initial
    ensures old(Calm(disk, ids, initial)) && old(disk.inodes[initial.ino].content) == copied ==>
      ok && Calm(disk, ids, initial)
  {
    ok := VerifySourceSnapshot(disk, ids, initial);
    if !ok { return; }
    ok := Reread(disk, ids, initial, copied);
    if !ok { return; }
    ok := StatTwice(disk, ids, initial);
  }

  // The last two stats: by the open file, then by its name.
  method StatTwice(disk: Disk, ids: Identity, initial: Stat) returns (ok: bool)
    requires disk.Valid() && initial.ino in disk.inodes
    modifies disk`inodes, disk`source, disk`writes, disk`past, disk`killed
    ensures disk.Elapsed({}) && SameShown(old(disk.past), disk.past)
    ensures ok ==> disk.source == Some(initial.ino) && StatOf(initial.ino, disk.inodes[initial.ino]) == initial
    ensures old(Calm(disk, ids, initial)) ==> ok && Calm(disk, ids, initial)
  {
    ok := VerifySourceSnapshot(disk, ids, initial);
    if !ok { return; }
    ok := VerifySourcePath(disk, ids, initial);
  }

  // What is checked between the copy and the rename.
  method CheckCopy(disk: Disk, ids: Identity, initial: Stat, temp: nat, copied: seq<byte>) returns (ok: bool)
    requires disk.Valid() && temp in disk.kept && disk.final != Some(temp) && temp != initial.ino
    requires disk.inodes[temp].content == copied && disk.inodes[temp].meta == TempMeta(ids)
    requires initial.ino in disk.inodes
    modifies disk`inodes, disk`source, disk`writes, disk`past, disk`killed
    ensures disk.Elapsed({temp}) && SameShown(old(disk.past), disk.past)
    ensures ok ==> disk.inodes[temp].content == copied && ValidPublished(disk.inodes[temp].meta, ids)
    ensures ok ==> disk.source == Some(initial.ino) && StatOf(initial.ino, disk.inodes[initial.ino]) == initial
    ensures old(Calm(disk, ids, initial)) && old(disk.inodes[initial.ino].content) == copied ==>
      ok && Calm(disk, ids, initial)
  {
    ok := FinishTemp(disk, ids, initial, temp, copied);
    if !ok { return; }
    ok := ConfirmSource(disk, ids, initial, copied);
  }

  // `bytes` were the source, whole and unchanged, from the first stat to the last, when the
  // backup path still led to it.
  ghost predicate Snapshot(past: seq<Instant>, initial: Stat, from: nat, to: nat, bytes: seq<byte>) {
    && from <= to < |past| && initial.ino in past[from].inodes
    && past[from].inodes[initial.ino].content == bytes
    && Constant(past, initial.ino, from, to, past[from].inodes[initial.ino])
    && past[to].source == Some(initial.ino)
  }

  // The first stat was taken at `from`, the temporary is new and empty.
  ghost predicate Begun(disk: Disk, ids: Identity, initial: Stat, temp: Temp, from: nat)
    reads disk
  {
    && disk.Valid() && from < |disk.past| && initial.ino in disk.past[from].inodes
    && StatOf(initial.ino, disk.past[from].inodes[initial.ino]) == initial
    && temp.ino in disk.kept && temp.ino !in disk.past[from].inodes && disk.final != Some(temp.ino)
    && temp.name in disk.stage && disk.stage[temp.name] == temp.ino
    && disk.inodes[temp.ino].content == [] && disk.inodes[temp.ino].meta == TempMeta(ids)
  }

  // Copy, check and confirm; nothing is shown yet.
  method Prepare(disk: Disk, ids: Identity, initial: Stat, temp: Temp, ghost from: nat)
    returns (ok: bool, copied: seq<byte>, ghost to: nat)
    requires Begun(disk, ids, initial, temp, from)
    modifies disk`inodes, disk`source, disk`writes, disk`past, disk`killed
    ensures disk.Elapsed({temp.ino}) && SameShown(old(disk.past), disk.past)
    ensures ok ==> disk.inodes[temp.ino].content == copied && ValidPublished(disk.inodes[temp.ino].meta, ids)
    ensures ok ==> Snapshot(disk.past, initial, from, to, copied)
    ensures old(Calm(disk, ids, initial)) ==> ok && Calm(disk, ids, initial)
  {
    to := from;
    ghost var node := disk.past[from].inodes[initial.ino];
    LaterThroughout(disk.past, from, |disk.past| - 1);
    ok, copied := CopyToTemp(disk, initial.ino, temp.ino);
    if !ok || |copied| != initial.size {
      return false, copied, to;
    }
    ok := CheckCopy(disk, ids, initial, temp.ino, copied);
    if !ok { return; }
    to := |disk.past| - 1;
    assert disk.past[from] == old(disk.past)[from];
    EqualStatsProveConstancy(disk.past, initial.ino, from, to);
  }

  lemma SnapshotStays(a: seq<Instant>, b: seq<Instant>, initial: Stat, from: nat, to: nat, bytes: seq<byte>)
    requires a <= b && Snapshot(a, initial, from, to, bytes)
    ensures Snapshot(b, initial, from, to, bytes)
  {
    assert forall t | 0 <= t < |a| :: b[t] == a[t];
  }

  // What the final name leads to is a well-formed file with these bytes.
  ghost predicate Shows(disk: Disk, ids: Identity, bytes: seq<byte>)
    reads disk
  {
    && disk.Linked() && disk.final.Some?
    && disk.inodes[disk.final.value].content == bytes && ValidPublished(disk.inodes[disk.final.value].meta, ids)
  }

  // The published file is opened, stat'ed and read back, and both directories are synced.
  method VerifyPublished(disk: Disk, ids: Identity, copied: seq<byte>) returns (ok: bool)
    requires disk.Valid()
    modifies disk`inodes, disk`source, disk`writes, disk`past, disk`killed
    ensures disk.Elapsed({}) && SameShown(old(disk.past), disk.past)
    ensures ok ==> Shows(disk, ids, copied)
    ensures old(disk.Quiet() && Shows(disk, ids, copied)) ==> ok && disk.Quiet()
  {
    ok := disk.Look();
    if !ok || disk.final == None {
      return false;
    }
    var ino := disk.final.value;
    var st := disk.Fstat(ino);
    if st == None || !ValidPublished(st.value.meta, ids) {
      return false;
    }
    var bytes := Drain(disk, ino);
    if bytes != Some(copied) {
      return false;
    }
    ok := disk.Look();
  }

  // sync, close and the checks before the rename, then the rename itself.
  method ShowTemp(disk: Disk, name: string) returns (ok: bool)
    requires disk.Valid() && name in disk.stage
    modifies disk`inodes, disk`source, disk`writes, disk`past, disk`killed, disk`stage, disk`final
    ensures disk.Elapsed({}) && old(disk.past) <= disk.past
    ensures OldOrNew(disk.past, |old(disk.past)|, old(disk.Now()).final, old(disk.inodes[disk.stage[name]].content))
    ensures
      || (disk.final == old(disk.final) && disk.stage == old(disk.stage))
      || (disk.final == Some(old(disk.stage)[name]) && disk.stage == old(disk.stage) - {name})
    ensures ok ==> disk.final == Some(old(disk.stage)[name]) && disk.stage == old(disk.stage) - {name}
    ensures old(disk.Quiet()) ==> ok && disk.Quiet()
  {
    ok := disk.Look();
    if !ok { return; }
    ok := disk.Rename(name);
  }

  // From the copy to the end. `owned` says whether the temporary is still to be cleaned up.
  // Only a confirmed snapshot is ever shown, however the run ends.
  method Transfer(disk: Disk, ids: Identity, initial: Stat, temp: Temp, ghost from: nat)
    returns (ok: bool, owned: bool, copied: seq<byte>, ghost to: nat)
    requires Begun(disk, ids, initial, temp, from)
    modifies disk`inodes, disk`source, disk`writes, disk`past, disk`killed, disk`stage, disk`final
    ensures disk.Elapsed({temp.ino}) && old(disk.past) <= disk.past
    ensures OldOrNew(disk.past, |old(disk.past)|, old(disk.Now()).final, copied)
    ensures SameShown(old(disk.past), disk.past) || Snapshot(disk.past, initial, from, to, copied)
    ensures
      || (disk.final == old(disk.final) && disk.stage == old(disk.stage))
      || (&& disk.stage == old(disk.stage) - {temp.name} && Shows(disk, ids, copied)
          && Snapshot(disk.past, initial, from, to, copied))
    ensures !owned ==> disk.stage == old(disk.stage) - {temp.name}
    ensures ok ==> !owned && Shows(disk, ids, copied) && Snapshot(disk.past, initial, from, to, copied)
    ensures old(Calm(disk, ids, initial)) ==> ok && disk.Quiet()
  {
    owned := true;
    ok, copied, to := Prepare(disk, ids, initial, temp, from);
    if !ok { return; }
    ghost var seen := disk.past;
    ok := ShowTemp(disk, temp.name);
    SnapshotStays(seen, disk.past, initial, from, to, copied);
    if !ok { return; }
    owned := false;
    ok := VerifyPublished(disk, ids, copied);
    SnapshotStays(seen, disk.past, initial, from, to, copied);
  }

  // The source is opened and stat'ed.
  method OpenAndStatSource(disk: Disk, ids: Identity) returns (initial: Option<Stat>)
    requires disk.Valid()
    modifies disk`inodes, disk`source, disk`writes, disk`past, disk`killed
    ensures disk.Elapsed({}) && SameShown(old(disk.past), disk.past)
    ensures initial.Some? ==>
      var st := initial.value;
      ValidSource(st.meta, ids) && st.ino in disk.inodes && st == StatOf(st.ino, disk.inodes[st.ino])
    ensures old(disk.Quiet()) ==>
      && disk.Quiet() && disk.inodes == old(disk.inodes) && disk.source == old(disk.source)
      && (initial.Some? <==> disk.source.Some? && ValidSource(disk.inodes[disk.source.value].meta, ids))
      && (initial.Some? ==> Calm(disk, ids, initial.value))
  {
    var ino := disk.OpenSource();
    if ino == None {
      return None;
    }
    initial := disk.Fstat(ino.value);
    if initial.Some? && !ValidSource(initial.value.meta, ids) {
      initial := None;
    }
  }

  // What is published already, if anything, is well-formed.
  ghost predicate ProperFinal(disk: Disk, ids: Identity)
    reads disk
  {
    disk.Linked() && (disk.final.Some? ==> ValidPublished(disk.inodes[disk.final.value].meta, ids))
  }

  // The destination is fit to be replaced, and by a rename.
  ghost predicate Replaceable(disk: Disk, ids: Identity)
    reads disk
  {
    disk.lockFree && disk.sameDevice && ProperFinal(disk, ids)
  }

  // Lock, devices, and the published file that is there already.
  method CheckDestination(disk: Disk, ids: Identity) returns (ok: bool)
    requires disk.Valid()
    modifies disk`inodes, disk`source, disk`writes, disk`past, disk`killed
    ensures disk.Elapsed({}) && SameShown(old(disk.past), disk.past)
    ensures ok ==> Replaceable(disk, ids)
    ensures old(disk.Quiet()) ==>
      && disk.Quiet() && disk.inodes == old(disk.inodes) && disk.source == old(disk.source)
      && (ok <==> Replaceable(disk, ids))
  {
    ok := disk.Look();
    if !ok || !disk.lockFree || !disk.sameDevice {
      return false;
    }
    var r := disk.StatName(true);
    ok := r.Absent? || (r.Found? && ValidPublished(r.st.meta, ids));
  }

  // The deferred cleanup: what is still owned is unlinked.
  method Cleanup(disk: Disk, name: string, owned: bool) returns (failed: bool)
    requires disk.Valid()
    modifies disk`inodes, disk`source, disk`writes, disk`past, disk`killed, disk`stage
    ensures disk.Elapsed({}) && SameShown(old(disk.past), disk.past)
    ensures disk.stage == old(disk.stage) || (owned && disk.stage == old(disk.stage) - {name})
    ensures !failed && owned ==> name !in disk.stage
    ensures old(disk.Quiet()) || !owned ==> !failed
  {
    failed := false;
    if owned {
      var ok := disk.Unlink(name);
      failed := !ok;
    }
  }

  // Nothing on the box stands in the way of a publication.
  ghost predicate Publishable(disk: Disk, ids: Identity, names: seq<string>)
    reads disk
  {
    && Replaceable(disk, ids) && disk.source.Some? && ValidSource(disk.inodes[disk.source.value].meta, ids)
    && NameFree(names, disk.stage)
  }

  // The transfer with its deferred cleanup.
  method TransferAndClean(disk: Disk, ids: Identity, initial: Stat, temp: Temp, ghost from: nat)
    returns (ok: bool, cleanupFailed: bool, copied: seq<byte>, ghost to: nat)
    requires Begun(disk, ids, initial, temp, from)
    modifies disk`inodes, disk`source, disk`writes, disk`past, disk`killed, disk`stage, disk`final
    ensures disk.Valid() && old(disk.past) <= disk.past && (old(disk.killed) ==> disk.killed)
    ensures old(ProperFinal(disk, ids)) ==> ProperFinal(disk, ids)
    ensures OldOrNew(disk.past, |old(disk.past)|, old(disk.Now()).final, copied)
    ensures SameShown(old(disk.past), disk.past) || Snapshot(disk.past, initial, from, to, copied)
    ensures ok || disk.final != old(disk.final) ==>
      Shows(disk, ids, copied) && Snapshot(disk.past, initial, from, to, copied)
    ensures ok ==> !cleanupFailed
    ensures disk.stage == old(disk.stage) - {temp.name} || (cleanupFailed && disk.stage == old(disk.stage))
    ensures old(Calm(disk, ids, initial)) ==> ok
  {
    assert (disk.stage - {temp.name}) - {temp.name} == disk.stage - {temp.name};
    var owned;
    ok, owned, copied, to := Transfer(disk, ids, initial, temp, from);
    ghost var seen := disk.past;
    cleanupFailed := Cleanup(disk, temp.name, owned);
    if Snapshot(seen, initial, from, to, copied) {
      SnapshotStays(seen, disk.past, initial, from, to, copied);
    }
    ok := ok && !cleanupFailed;
  }

  // The part after the first stat, under a temporary name of our own.
  method PublishFrom(disk: Disk, ids: Identity, initial: Stat, names: seq<string>, ghost from: nat)
    returns (ok: bool, cleanupFailed: bool, copied: seq<byte>, ghost to: nat)
    requires disk.Valid() && |names| == MAX_TEMP_NAME_TRIES
    requires from < |disk.past| && initial.ino in disk.past[from].inodes
    requires StatOf(initial.ino, disk.past[from].inodes[initial.ino]) == initial
    modifies disk`inodes, disk`source, disk`writes, disk`past, disk`killed, disk`stage, disk`kept, disk`final
    ensures disk.Valid() && old(disk.past) <= disk.past
    ensures old(ProperFinal(disk, ids)) ==> ProperFinal(disk, ids)
    ensures OldOrNew(disk.past, |old(disk.past)|, old(disk.Now()).final, copied)
    ensures SameShown(old(disk.past), disk.past) || Snapshot(disk.past, initial, from, to, copied)
    ensures ok || disk.final != old(disk.final) ==>
      Shows(disk, ids, copied) && Snapshot(disk.past, initial, from, to, copied)
    ensures ok ==> !cleanupFailed
    ensures !cleanupFailed && !disk.killed ==> disk.stage == old(disk.stage)
    ensures AtMostOneMore(old(disk.stage), disk.stage)
    ensures old(Calm(disk, ids, initial)) ==> (ok <==> NameFree(names, old(disk.stage)))
  {
    LaterThroughout(disk.past, from, |disk.past| - 1);
    to := from;
    var temp := CreateExclusive(disk, ids, names, initial);
    if temp == None {
      return false, false, [], to;
    }
    assert disk.stage - {temp.value.name} == old(disk.stage);
    ok, cleanupFailed, copied, to := TransferAndClean(disk, ids, initial, temp.value, from);
  }

  // publishLNDBackup, against any writes of LND and any faults. `names` are the temporary
  // names the generator hands out.
  method PublishLNDBackup(disk: Disk, ids: Identity, names: seq<string>)
    returns (ok: bool, cleanupFailed: bool, copied: seq<byte>, ghost initial: Stat, ghost from: nat, ghost to: nat)
    requires disk.Valid() && |names| == MAX_TEMP_NAME_TRIES
    modifies disk`inodes, disk`source, disk`writes, disk`past, disk`killed, disk`stage, disk`kept, disk`final
    ensures disk.Valid() && old(disk.past) <= disk.past
    ensures old(ProperFinal(disk, ids)) ==> ProperFinal(disk, ids)
    // the final name never shows anything but the old file or the complete copy
    ensures OldOrNew(disk.past, |old(disk.past)|, old(disk.Now()).final, copied)
    ensures SameShown(old(disk.past), disk.past) || Snapshot(disk.past, initial, from, to, copied)
    // and only a confirmed snapshot of the source is a complete copy
    ensures ok || disk.final != old(disk.final) ==>
      Shows(disk, ids, copied) && Snapshot(disk.past, initial, from, to, copied) && |old(disk.past)| <= from + 1
    // the stage is as it was unless cleaning up failed or the process was killed
    ensures ok ==> !cleanupFailed
    ensures !cleanupFailed && !disk.killed ==> disk.stage == old(disk.stage)
    ensures AtMostOneMore(old(disk.stage), disk.stage)
    // without faults and writes it succeeds exactly if nothing stands in the way
    ensures old(disk.Quiet()) ==> (ok <==> old(Publishable(disk, ids, names)))
  {
    ok, cleanupFailed, copied, from, to := false, false, [], 0, 0;
    initial := StatOf(0, Inode([], TempMeta(ids), 0, 0));
    var st := OpenAndStatSource(disk, ids);
    if st == None { return; }
    initial, from := st.value, |disk.past| - 1;
    ok := CheckDestination(disk, ids);
    if !ok { return; }
    ok, cleanupFailed, copied, to := PublishFrom(disk, ids, st.value, names, from);
  }

  /* ---- Many publications ---- */

  // One confirmed snapshot.
  datatype Shot = Shot(initial: Stat, from: nat, to: nat, bytes: seq<byte>)

  ghost predicate Confirmed(past: seq<Instant>, shots: seq<Shot>) {
    forall k | 0 <= k < |shots| :: Snapshot(past, shots[k].initial, shots[k].from, shots[k].to, shots[k].bytes)
  }

  ghost predicate ShownBefore(f: Option<seq<byte>>, first: Option<seq<byte>>, shots: seq<Shot>) {
    f == first || exists k | 0 <= k < |shots| :: f == Some(shots[k].bytes)
  }

  // At every instant from `start` on, the final name is the first file or a confirmed snapshot.
  ghost predicate Accounted(past: seq<Instant>, start: nat, first: Option<seq<byte>>, shots: seq<Shot>) {
    Confirmed(past, shots) && forall t | start <= t < |past| :: ShownBefore(past[t].final, first, shots)
  }

  // One more run keeps the account, with its own snapshot if it showed one.
  lemma AccountGrows(a: seq<Instant>, b: seq<Instant>, start: nat, first: Option<seq<byte>>, shots: seq<Shot>, s: Shot)
    returns (next: seq<Shot>)
    requires a <= b && start < |a| && Accounted(a, start, first, shots)
    requires OldOrNew(b, |a|, a[|a| - 1].final, s.bytes)
    requires SameShown(a, b) || Snapshot(b, s.initial, s.from, s.to, s.bytes)
    ensures Accounted(b, start, first, next) && shots <= next && |next| <= |shots| + 1
    ensures Snapshot(b, s.initial, s.from, s.to, s.bytes) ==> next == shots + [s]
  {
    next := if Snapshot(b, s.initial, s.from, s.to, s.bytes) then shots + [s] else shots;
    forall k | 0 <= k < |shots| ensures Snapshot(b, shots[k].initial, shots[k].from, shots[k].to, shots[k].bytes) {
      SnapshotStays(a, b, shots[k].initial, shots[k].from, shots[k].to, shots[k].bytes);
    }
    forall t | start <= t < |b| ensures ShownBefore(b[t].final, first, next) {
      var u := if t < |a| then t else |a| - 1;
      assert ShownBefore(a[u].final, first, shots);
      StillShown(a[u].final, first, shots, next);
      if t >= |a| && b[t].final != a[|a| - 1].final {
        assert b[t].final == Some(next[|next| - 1].bytes);
      }
    }
  }

  lemma StillShown(f: Option<seq<byte>>, first: Option<seq<byte>>, shots: seq<Shot>, next: seq<Shot>)
    requires ShownBefore(f, first, shots) && shots <= next
    ensures ShownBefore(f, first, next)
  {
    if f != first {
      var k :| 0 <= k < |shots| && f == Some(shots[k].bytes);
      assert next[k] == shots[k];
    }
  }

  // The stage directory keeps what it held and gains at most `n` names.
  ghost predicate AtMostMore(before: map<string, nat>, after: map<string, nat>, n: nat) {
    (forall k | k in before :: k in after && after[k] == before[k]) && |after| <= |before| + n
  }

  lemma OneMoreThan(a: map<string, nat>, b: map<string, nat>, c: map<string, nat>, n: nat)
    requires AtMostMore(a, b, n) && AtMostOneMore(b, c)
    ensures AtMostMore(a, c, n + 1)
  {
    if c != b {
      var k :| k in c && k !in b && c == b[k := c[k]];
      assert c.Keys == b.Keys + {k};
      assert |c| == |c.Keys| && |b| == |b.Keys|;
    }
  }

  // One run of the service, carried to the account of those before it.
  method OnePublication(disk: Disk, ids: Identity, names: seq<string>, ghost start: nat,
                        ghost first: Option<seq<byte>>, ghost shots: seq<Shot>)
    returns (ghost next: seq<Shot>)
    requires disk.Valid() && |names| == MAX_TEMP_NAME_TRIES
    requires start < |disk.past| && Accounted(disk.past, start, first, shots)
    modifies disk
    ensures disk.Valid() && old(disk.past) <= disk.past
    ensures old(ProperFinal(disk, ids)) ==> ProperFinal(disk, ids)
    ensures Accounted(disk.past, start, first, next) && |next| <= |shots| + 1
    ensures AtMostOneMore(old(disk.stage), disk.stage)
  {
    var calm: bool := *;
    disk.Restart(calm);
    ghost var initial, from, to;
    var ok, cleanupFailed, copied;
    ok, cleanupFailed, copied, initial, from, to := PublishLNDBackup(disk, ids, names);
    next := AccountGrows(old(disk.past), disk.past, start, first, shots, Shot(initial, from, to, copied));
  }

  // Any number of publications, each with any writes of LND, any faults, and killed anywhere.
  method AnyPublications(disk: Disk, ids: Identity, runs: seq<seq<string>>) returns (ghost shots: seq<Shot>)
    requires disk.Valid() && forall k | 0 <= k < |runs| :: |runs[k]| == MAX_TEMP_NAME_TRIES
    modifies disk
    ensures disk.Valid() && old(disk.past) <= disk.past && |shots| <= |runs|
    ensures old(ProperFinal(disk, ids)) ==> ProperFinal(disk, ids)
    ensures Accounted(disk.past, |old(disk.past)| - 1, old(disk.Now()).final, shots)
    ensures AtMostMore(old(disk.stage), disk.stage, |runs|)
  {
    ghost var start, first := |disk.past| - 1, disk.Now().final;
    shots := [];
    for i := 0 to |runs|
      invariant disk.Valid() && old(disk.past) <= disk.past && |shots| <= i
      invariant old(ProperFinal(disk, ids)) ==> ProperFinal(disk, ids)
      invariant Accounted(disk.past, start, first, shots)
      invariant AtMostMore(old(disk.stage), disk.stage, i)
    {
      ghost var stage := disk.stage;
      shots := OnePublication(disk, ids, runs[i], start, first, shots);
      OneMoreThan(old(disk.stage), stage, disk.stage, i);
    }
  }

  // Whatever such runs left behind, one without faults and writes publishes exactly if LND's
  // backup is there and well-formed and the generator hands out a free name.
  method QuietPublication(disk: Disk, ids: Identity, names: seq<string>) returns (ok: bool, copied: seq<byte>)
    requires disk.Valid() && ProperFinal(disk, ids) && disk.lockFree && disk.sameDevice
    requires |names| == MAX_TEMP_NAME_TRIES
    modifies disk
    ensures disk.Valid() && ProperFinal(disk, ids)
    ensures ok <==>
      && old(disk.source.Some? && ValidSource(disk.inodes[disk.source.value].meta, ids))
      && old(NameFree(names, disk.stage))
    ensures ok ==> Shows(disk, ids, copied)
  {
    disk.Restart(true);
    ghost var initial, from, to;
    var cleanupFailed;
    ok, cleanupFailed, copied, initial, from, to := PublishLNDBackup(disk, ids, names);
  }
}
