/**
 Replacing the agent's configuration file in place (agent/Sources/MacosAuthAgent/SecureFiles.swift): what the
 directory shows, and what a crash leaves of it, after every single system call.
 */
module ConfigFiles {
  import opened Bytes
  import opened FileModes

  /** `mode` holds the permission bits. */
  datatype File = File(kind: Kind, data: bytes, uid: nat, gid: nat, mode: bv16)

  /**
   One directory: what lookups see, the inodes whose present contents have been forced out, and every state of the
   directory itself that may be the one on the medium.
   */
  datatype Disk = Disk(names: map<bytes, nat>, files: map<nat, File>, synced: set<nat>, onDisk: seq<map<bytes, nat>>)

  predicate ValidDisk(d: Disk) {
    && (forall n :: n in d.names ==> d.names[n] in d.files)
    && d.synced <= d.files.Keys
  }

  function Created(d: Disk, name: bytes, inode: nat, f: File): Disk {
    var names := d.names[name := inode];
    d.(names := names, files := d.files[inode := f], synced := d.synced - {inode}, onDisk := d.onDisk + [names])
  }

  /** New contents or metadata are only in memory at first. */
  function Changed(d: Disk, inode: nat, f: File): Disk {
    d.(files := d.files[inode := f], synced := d.synced - {inode})
  }

  function Synced(d: Disk, inode: nat): Disk { d.(synced := d.synced + {inode}) }

  function Renamed(d: Disk, from: bytes, to: bytes): Disk
    requires from in d.names
  {
    var names := (d.names - {from})[to := d.names[from]];
    d.(names := names, onDisk := d.onDisk + [names])
  }

  function Unlinked(d: Disk, name: bytes): Disk {
    var names := d.names - {name};
    d.(names := names, onDisk := d.onDisk + [names])
  }

  function NamesSynced(d: Disk): Disk { d.(onDisk := [d.names]) }

  /** After a crash: some directory state that may be on the medium, and what was forced out; all else is arbitrary. */
  ghost predicate AfterCrash(d: Disk, names: map<bytes, nat>, files: map<nat, File>) {
    && names in d.onDisk
    && forall i :: i in d.synced && i in d.files ==> i in files && files[i] == d.files[i]
  }

  /** `history` is every state since the volume was made, one for each system call that changed something. */
  class Volume {
    var disk: Disk
    ghost var history: seq<Disk>

    constructor (disk: Disk)
      ensures this.disk == disk && history == []
    {
      this.disk, history := disk, [];
    }

    method Become(next: Disk)
      modifies this
      ensures disk == next && history == old(history) + [next]
    {
      disk, history := next, history + [next];
    }
  }

  datatype ConfigError =
    | OpenDirectory | UnsafeDirectory | OpenConfig | StatConfig | NotRegular | WrongOwner | UnsafePermissions
    | CreateReplacement | WriteFailed | SecureReplacement | CloseReplacement | ConfigChanged | ReplaceConfig
    | SyncDirectory

  /** `Pending`: the call is still being interrupted. */
  datatype Ended = Done | Thrown(error: ConfigError) | Pending

  function ValidateFileMetadata(f: File, isPrivate: bool, euid: nat): Outcome<ConfigError> {
    if !f.kind.Regular? then Fail(NotRegular)
    else if f.uid != euid && f.uid != 0 then Fail(WrongOwner)
    else if f.mode & (if isPrivate then GROUP_OR_WORLD else GROUP_OR_WORLD_WRITE) != 0 then Fail(UnsafePermissions)
    else Pass
  }

  // ---- Writing ----

  datatype Write = Interrupted | Failed | Wrote(count: nat)

  /** How writing `size` bytes ends when `write` answers like this, and how many bytes were written. */
  function WriteOutcome(size: nat, writes: seq<Write>): (r: (Ended, nat))
    ensures r.1 <= size && (r.0.Done? <==> r.1 == size) && (r.0.Thrown? ==> r.0.error == WriteFailed)
    decreases |writes|
  {
    if size == 0 then (Done, 0)
    else if writes == [] then (Pending, 0)
    else
      match writes[0]
      case Interrupted => WriteOutcome(size, writes[1..])
      case Failed => (Thrown(WriteFailed), 0)
      case Wrote(count) =>
        if count == 0 then (Thrown(WriteFailed), 0)
        else
          var n := Min(count, size);
          var (r, more) := WriteOutcome(size - n, writes[1..]);
          (r, n + more)
  }

  /** A write that gets somewhere, or is merely interrupted. */
  predicate Helpful(w: Write) { w.Interrupted? || (w.Wrote? && w.count > 0) }

  predicate AllHelpful(writes: seq<Write>) { forall i :: 0 <= i < |writes| ==> Helpful(writes[i]) }

  function Total(writes: seq<Write>): nat {
    if writes == [] then 0 else (if writes[0].Wrote? then writes[0].count else 0) + Total(writes[1..])
  }

  /** Writing is unfinished exactly if nothing failed and the writes given do not suffice. */
  lemma {:induction false} PendingExactly(size: nat, writes: seq<Write>)
    ensures WriteOutcome(size, writes).0.Pending? <==> AllHelpful(writes) && Total(writes) < size
    decreases |writes|
  {
    if writes != [] {
      var tail := writes[1..];
      assert AllHelpful(writes) <==> Helpful(writes[0]) && AllHelpful(tail) by {
        assert writes == [writes[0]] + tail;
      }
      var n := if writes[0].Wrote? then Min(writes[0].count, size) else 0;
      PendingExactly(size - n, tail);
    }
  }

  /** The first `k` writes suffice, and none of them fails. */
  predicate Suffice(size: nat, writes: seq<Write>, k: nat) {
    k <= |writes| && AllHelpful(writes[..k]) && Total(writes[..k]) >= size
  }

  lemma SufficeFrom(size: nat, writes: seq<Write>, k: nat)
    requires size > 0 && writes != [] && k < |writes|
    ensures var n := if writes[0].Wrote? then Min(writes[0].count, size) else 0;
            Suffice(size, writes, k + 1) <==> Helpful(writes[0]) && Suffice(size - n, writes[1..], k)
  {
    var first, before := writes[0], writes[1..][..k];
    assert writes[..k + 1] == [first] + before;
    assert AllHelpful([first] + before) <==> Helpful(first) && AllHelpful(before) by {
      assert forall i :: 0 <= i < k ==> ([first] + before)[i + 1] == before[i];
    }
    assert ([first] + before)[1..] == before;
  }

  lemma {:induction false} DoneSuffices(size: nat, writes: seq<Write>) returns (k: nat)
    requires WriteOutcome(size, writes).0.Done?
    ensures Suffice(size, writes, k)
    decreases |writes|
  {
    if size == 0 {
      k := 0;
    } else {
      var n := if writes[0].Wrote? then Min(writes[0].count, size) else 0;
      var j := DoneSuffices(size - n, writes[1..]);
      SufficeFrom(size, writes, j);
      k := j + 1;
    }
  }

  lemma {:induction false} SufficesIsDone(size: nat, writes: seq<Write>, k: nat)
    requires Suffice(size, writes, k)
    ensures WriteOutcome(size, writes).0.Done?
    decreases |writes|
  {
    if size > 0 {
      var j: nat := k - 1;
      SufficeFrom(size, writes, j);
      SufficesIsDone(size - if writes[0].Wrote? then Min(writes[0].count, size) else 0, writes[1..], j);
    }
  }

  /** All of it is written exactly if some first writes suffice before any failure. */
  lemma DoneExactly(size: nat, writes: seq<Write>)
    ensures WriteOutcome(size, writes).0.Done? <==> exists k: nat :: Suffice(size, writes, k)
  {
    if WriteOutcome(size, writes).0.Done? { var k := DoneSuffices(size, writes); }
    if k: nat :| Suffice(size, writes, k) { SufficesIsDone(size, writes, k); }
  }

  function Appended(d: Disk, inode: nat, data: bytes): Disk
    requires inode in d.files
  {
    Changed(d, inode, d.files[inode].(data := d.files[inode].data + data))
  }

  /** No write at all leaves everything as it is. */
  function AppendedSome(d: Disk, inode: nat, data: bytes): Disk
    requires inode in d.files
  {
    if data == [] then d else Appended(d, inode, data)
  }

  /** `later` differs from `d` at most in what file `inode` holds and whether it is forced out. */
  predicate OnlyFileDiffers(d: Disk, later: Disk, inode: nat) {
    && later.names == d.names && later.onDisk == d.onDisk
    && later.files.Keys == d.files.Keys && (forall i :: i in d.files && i != inode ==> later.files[i] == d.files[i])
    && d.synced - {inode} <= later.synced
  }

  ghost predicate AllOnlyFileDiffers(d: Disk, history: seq<Disk>, from: nat, inode: nat) {
    forall i :: from <= i < |history| ==> OnlyFileDiffers(d, history[i], inode)
  }

  lemma AppendedMore(d: Disk, inode: nat, data: bytes, from: nat, to: nat)
    requires inode in d.files && from < to <= |data|
    ensures Appended(AppendedSome(d, inode, data[..from]), inode, data[from..to]) == AppendedSome(d, inode, data[..to])
  {
    assert data[..from] + data[from..to] == data[..to];
    var before := d.files[inode].data;
    assert (before + data[..from]) + data[from..to] == before + data[..to];
    assert Appended(AppendedSome(d, inode, data[..from]), inode, data[from..to]).files
        == AppendedSome(d, inode, data[..to]).files;
  }

  /** After `call` writes, `offset` bytes are out, and the rest of the writes decide about the rest of the bytes. */
  predicate UpTo(size: nat, writes: seq<Write>, offset: nat, call: nat) {
    && offset <= size && call <= |writes|
    && var (r, more) := WriteOutcome(size - offset, writes[call..]);
       WriteOutcome(size, writes) == (r, offset + more)
  }

  lemma OneWrite(size: nat, writes: seq<Write>, offset: nat, call: nat)
    requires UpTo(size, writes, offset, call) && offset < size
    ensures call == |writes| ==> WriteOutcome(size, writes) == (Pending, offset)
    ensures call < |writes| && !Helpful(writes[call]) ==> WriteOutcome(size, writes) == (Thrown(WriteFailed), offset)
    ensures call < |writes| && Helpful(writes[call]) ==>
              var n := if writes[call].Wrote? then Min(writes[call].count, size - offset) else 0;
              UpTo(size, writes, offset + n, call + 1)
  {
    if call < |writes| { assert writes[call..][1..] == writes[call + 1..]; }
  }

  lemma SomeDiffers(d: Disk, inode: nat, data: bytes)
    requires inode in d.files
    ensures OnlyFileDiffers(d, AppendedSome(d, inode, data), inode)
  {
  }

  lemma OneMoreDiffers(d: Disk, history: seq<Disk>, from: nat, inode: nat, data: bytes)
    requires inode in d.files && AllOnlyFileDiffers(d, history, from, inode)
    ensures AllOnlyFileDiffers(d, history + [AppendedSome(d, inode, data)], from, inode)
  {
  }

  /** One write that gets somewhere. */
  method WriteSome(volume: Volume, data: bytes, inode: nat, offset: nat, count: nat, ghost was: Disk, ghost from: nat)
    requires inode in was.files && count > 0 && offset + count <= |data|
    requires volume.disk == AppendedSome(was, inode, data[..offset])
    requires from <= |volume.history| && AllOnlyFileDiffers(was, volume.history, from, inode)
    modifies volume
    ensures volume.disk == AppendedSome(was, inode, data[..offset + count])
    ensures volume.history == old(volume.history) + [volume.disk]
    ensures AllOnlyFileDiffers(was, volume.history, from, inode)
  {
    AppendedMore(was, inode, data, offset, offset + count);
    OneMoreDiffers(was, volume.history, from, inode, data[..offset + count]);
    volume.Become(Appended(volume.disk, inode, data[offset..offset + count]));
  }

  /** Short writes and interruptions notwithstanding, exactly the data is appended. */
  method WriteAll(volume: Volume, data: bytes, inode: nat, writes: seq<Write>) returns (r: Ended)
    requires inode in volume.disk.files
    modifies volume
    ensures var (outcome, n) := WriteOutcome(|data|, writes);
            r == outcome && volume.disk == AppendedSome(old(volume.disk), inode, data[..n])
    ensures old(volume.history) <= volume.history
    ensures AllOnlyFileDiffers(old(volume.disk), volume.history, |old(volume.history)|, inode)
  {
    var offset: nat, call := 0, 0;
    ghost var was := volume.disk;
    assert writes[0..] == writes;
    while offset < |data|
      invariant UpTo(|data|, writes, offset, call)
      invariant volume.disk == AppendedSome(was, inode, data[..offset])
      invariant old(volume.history) <= volume.history
      invariant AllOnlyFileDiffers(was, volume.history, |old(volume.history)|, inode)
      decreases |writes| - call
    {
      OneWrite(|data|, writes, offset, call);
      if call == |writes| { return Pending; }
      var result := writes[call];
      call := call + 1;
      if result.Interrupted? { continue; }
      if result.Failed? || result.count == 0 { return Thrown(WriteFailed); }
      var count := Min(result.count, |data| - offset);
      WriteSome(volume, data, inode, offset, count, was, |old(volume.history)|);
      offset := offset + count;
    }
    assert data[..offset] == data;
    return Done;
  }

  // ---- Replacing ----

  /** What the system calls other than `write` answer. `parent` and `current` are what is found under those names. */
  datatype Calls = Calls(
    parent: Option<File>, parentStat: bool, openOriginal: bool, statOriginal: bool, create: bool, chown: bool,
    chmod: bool, sync: bool, close: bool, current: Option<nat>, rename: bool, syncDirectory: bool, unlink: bool)

  function Wanted(original: File, data: bytes, isPrivate: bool): File {
    original.(data := data, mode := original.mode & (if isPrivate then OWNER_READ_WRITE else PERMISSIONS))
  }

  /** In this state of the directory `name` is still the original, or a new inode that is complete and forced out. */
  predicate Binds(names: map<bytes, nat>, d: Disk, name: bytes, original: nat, inode: nat, wanted: File) {
    && name in names
    && (names[name] == original
        || (names[name] == inode && inode in d.files && d.files[inode] == wanted && inode in d.synced))
  }

  /** The original was fully on the medium. */
  predicate Durable(d: Disk, name: bytes) {
    && name in d.names && d.names[name] in d.synced && d.names[name] in d.files
    && forall k :: 0 <= k < |d.onDisk| ==> name in d.onDisk[k] && d.onDisk[k][name] == d.names[name]
  }

  predicate Safe(was: Disk, d: Disk, name: bytes, inode: nat, wanted: File)
    requires name in was.names && was.names[name] in was.files
  {
    var original := was.names[name];
    && Binds(d.names, d, name, original, inode, wanted)
    && original in d.files && d.files[original] == was.files[original]
    && (Durable(was, name) ==>
          && original in d.synced
          && forall k :: 0 <= k < |d.onDisk| ==> Binds(d.onDisk[k], d, name, original, inode, wanted))
  }

  ghost predicate AllSafe(was: Disk, history: seq<Disk>, from: nat, name: bytes, inode: nat, wanted: File)
    requires name in was.names && was.names[name] in was.files
  {
    forall i :: from <= i < |history| ==> Safe(was, history[i], name, inode, wanted)
  }

  /** From `was`, the replacement was created and filled, and nothing else happened. */
  predicate Filling(was: Disk, d: Disk, replacement: bytes, inode: nat) {
    && d.names == was.names[replacement := inode]
    && d.files.Keys == was.files.Keys + {inode} && (forall i :: i in was.files ==> d.files[i] == was.files[i])
    && was.synced <= d.synced
    && d.onDisk == was.onDisk + [d.names]
  }

  lemma FillingIsSafe(was: Disk, d: Disk, name: bytes, replacement: bytes, inode: nat, wanted: File)
    requires ValidDisk(was) && name in was.names && name != replacement && inode !in was.files
    requires Filling(was, d, replacement, inode)
    ensures Safe(was, d, name, inode, wanted)
  {
  }

  lemma StillFilling(was: Disk, d: Disk, later: Disk, replacement: bytes, inode: nat)
    requires ValidDisk(was) && inode !in was.files && Filling(was, d, replacement, inode)
             && OnlyFileDiffers(d, later, inode)
    ensures Filling(was, later, replacement, inode)
  {
  }

  /** Changing the replacement itself, or forcing it out, is part of filling it. */
  lemma TouchedStillFilling(was: Disk, d: Disk, replacement: bytes, inode: nat, f: File)
    requires ValidDisk(was) && inode !in was.files && Filling(was, d, replacement, inode)
    ensures Filling(was, Changed(d, inode, f), replacement, inode)
    ensures Filling(was, Synced(d, inode), replacement, inode)
  {
  }

  lemma SafeThroughout(was: Disk, earlier: seq<Disk>, history: seq<Disk>, from: nat, name: bytes, inode: nat,
                       wanted: File)
    requires name in was.names && was.names[name] in was.files && from <= |earlier| && earlier <= history
    requires AllSafe(was, earlier, from, name, inode, wanted) && AllSafe(was, history, |earlier|, name, inode, wanted)
    ensures AllSafe(was, history, from, name, inode, wanted)
  {
    forall i | from <= i < |history| ensures Safe(was, history[i], name, inode, wanted) {
      if i < |earlier| { assert history[i] == earlier[i]; }
    }
  }

  lemma StretchIsSafe(was: Disk, d: Disk, history: seq<Disk>, from: nat, to: nat, name: bytes, replacement: bytes,
                      inode: nat, wanted: File)
    requires ValidDisk(was) && name in was.names && name != replacement && inode !in was.files
    requires Filling(was, d, replacement, inode)
    requires from <= to <= |history| && AllSafe(was, history[..to], from, name, inode, wanted)
    requires AllOnlyFileDiffers(d, history, to, inode)
    ensures AllSafe(was, history, from, name, inode, wanted)
  {
    forall i | from <= i < |history| ensures Safe(was, history[i], name, inode, wanted) {
      if i < to {
        assert history[i] == history[..to][i];
      } else {
        assert OnlyFileDiffers(d, history[i], inode);
        StillFilling(was, d, history[i], replacement, inode);
        FillingIsSafe(was, history[i], name, replacement, inode, wanted);
      }
    }
  }

  const CREATION_MODE: bv16 := OWNER_READ_WRITE

  /** The first of the calls that secure the replacement to fail. */
  function SecureOutcome(calls: Calls): Ended {
    if !calls.chown || !calls.chmod || !calls.sync then Thrown(SecureReplacement)
    else if !calls.close then Thrown(CloseReplacement)
    else Done
  }

  /** The first of the calls that put it in place to fail. */
  function SwapOutcome(original: nat, calls: Calls): Ended {
    if calls.current != Some(original) then Thrown(ConfigChanged)
    else if !calls.rename then Thrown(ReplaceConfig)
    else if !calls.syncDirectory then Thrown(SyncDirectory)
    else Done
  }

  function FillOutcome(size: nat, calls: Calls, writes: seq<Write>): Ended {
    var written := WriteOutcome(size, writes).0;
    if written.Done? then SecureOutcome(calls) else written
  }

  /** The first thing to go wrong in the whole replacement. */
  function ReplaceOutcome(d: Disk, name: bytes, size: nat, euid: nat, uuid: bytes, calls: Calls,
                          writes: seq<Write>): Ended {
    var checked := Checks(d, name, euid, calls);
    if checked.Fail? then Thrown(checked.error)
    else if !calls.create || ReplacementName(name, uuid) in d.names then Thrown(CreateReplacement)
    else
      var filled := FillOutcome(size, calls, writes);
      if filled.Done? then SwapOutcome(d.names[name], calls) else filled
  }

  /**
   Replacing succeeds exactly if every check passes, the replacement's name is free, the writes suffice, every call
   works and the name still leads to the original; it is unfinished exactly if the writes given never finish the data.
   */
  lemma ReplacedExactly(d: Disk, name: bytes, size: nat, euid: nat, uuid: bytes, calls: Calls, writes: seq<Write>)
    ensures var r, checked := ReplaceOutcome(d, name, size, euid, uuid, calls, writes), Checks(d, name, euid, calls);
            var created := checked.Pass? && calls.create && ReplacementName(name, uuid) !in d.names;
            && (r.Done? <==>
                  && created && WriteOutcome(size, writes).0.Done?
                  && calls.chown && calls.chmod && calls.sync && calls.close
                  && calls.current == Some(d.names[name]) && calls.rename && calls.syncDirectory)
            && (r.Pending? <==> created && AllHelpful(writes) && Total(writes) < size)
            && (r == Thrown(SyncDirectory) <==>
                  && created && WriteOutcome(size, writes).0.Done?
                  && calls.chown && calls.chmod && calls.sync && calls.close
                  && calls.current == Some(d.names[name]) && calls.rename && !calls.syncDirectory)
  {
    PendingExactly(size, writes);
  }

  /** Changes or forces out the replacement, which is safe. */
  method Alter(volume: Volume, inode: nat, next: Disk, ghost from: nat, ghost was: Disk, ghost name: bytes,
               ghost replacement: bytes, ghost wanted: File)
    requires ValidDisk(was) && name in was.names && name != replacement && inode !in was.files
    requires Filling(was, next, replacement, inode)
    requires from <= |volume.history| && AllSafe(was, volume.history, from, name, inode, wanted)
    modifies volume
    ensures volume.disk == next && volume.history == old(volume.history) + [next]
    ensures AllSafe(was, volume.history, from, name, inode, wanted)
  {
    FillingIsSafe(was, next, name, replacement, inode, wanted);
    volume.Become(next);
  }

  /** Owner and mode of the original, forced out and closed. */
  method Secure(volume: Volume, inode: nat, original: File, isPrivate: bool, calls: Calls,
                ghost was: Disk, ghost name: bytes, ghost replacement: bytes, ghost wanted: File) returns (r: Ended)
    requires ValidDisk(was) && name in was.names && name != replacement && inode !in was.files
    requires Filling(was, volume.disk, replacement, inode)
    requires original.kind.Regular? && volume.disk.files[inode].kind.Regular?
    requires wanted == Wanted(original, volume.disk.files[inode].data, isPrivate)
    modifies volume
    ensures Filling(was, volume.disk, replacement, inode)
    ensures r.Done? ==> volume.disk.files[inode] == wanted && inode in volume.disk.synced
    ensures r == SecureOutcome(calls)
    ensures old(volume.history) <= volume.history
    ensures AllSafe(was, volume.history, |old(volume.history)|, name, inode, wanted)
  {
    ghost var from := |volume.history|;
    if !calls.chown { return Thrown(SecureReplacement); }
    var owned := volume.disk.files[inode].(uid := original.uid, gid := original.gid);
    TouchedStillFilling(was, volume.disk, replacement, inode, owned);
    Alter(volume, inode, Changed(volume.disk, inode, owned), from, was, name, replacement, wanted);
    if !calls.chmod { return Thrown(SecureReplacement); }
    var mode := original.mode & (if isPrivate then OWNER_READ_WRITE else PERMISSIONS);
    TouchedStillFilling(was, volume.disk, replacement, inode, owned.(mode := mode));
    Alter(volume, inode, Changed(volume.disk, inode, owned.(mode := mode)), from, was, name, replacement, wanted);
    if !calls.sync { return Thrown(SecureReplacement); }
    TouchedStillFilling(was, volume.disk, replacement, inode, wanted);
    Alter(volume, inode, Synced(volume.disk, inode), from, was, name, replacement, wanted);
    if !calls.close { return Thrown(CloseReplacement); }
    return Done;
  }

  /** Creates the replacement, fills it and secures it. */
  method FillReplacement(volume: Volume, replacement: bytes, inode: nat, data: bytes, original: File, isPrivate: bool,
                         euid: nat, calls: Calls, writes: seq<Write>, ghost name: bytes) returns (r: Ended)
    requires ValidDisk(volume.disk) && inode !in volume.disk.files && original.kind.Regular?
    requires name in volume.disk.names && name != replacement && replacement !in volume.disk.names
    modifies volume
    ensures Filling(old(volume.disk), volume.disk, replacement, inode)
    ensures r.Done? ==> volume.disk.files[inode] == Wanted(original, data, isPrivate) && inode in volume.disk.synced
    ensures r == FillOutcome(|data|, calls, writes)
    ensures old(volume.history) <= volume.history
    ensures AllSafe(old(volume.disk), volume.history, |old(volume.history)|, name, inode,
                    Wanted(original, data, isPrivate))
  {
    ghost var was, start, wanted := volume.disk, |volume.history|, Wanted(original, data, isPrivate);
    volume.Become(Created(volume.disk, replacement, inode, File(Regular, [], euid, 0, CREATION_MODE)));
    ghost var created, to := volume.disk, |volume.history|;
    FillingIsSafe(was, created, name, replacement, inode, wanted);
    r := WriteAll(volume, data, inode, writes);
    SomeDiffers(created, inode, data[..WriteOutcome(|data|, writes).1]);
    assert volume.history[..to] == old(volume.history) + [created];
    StretchIsSafe(was, created, volume.history, start, to, name, replacement, inode, wanted);
    StillFilling(was, created, volume.disk, replacement, inode);
    if !r.Done? { return; }
    ghost var filled := volume.history;
    r := Secure(volume, inode, original, isPrivate, calls, was, name, replacement, wanted);
    SafeThroughout(was, filled, volume.history, start, name, inode, wanted);
  }

  /** The errors that come after the replacement was created. */
  predicate Creates(e: ConfigError) {
    e in {WriteFailed, SecureReplacement, CloseReplacement, ConfigChanged, ReplaceConfig, SyncDirectory}
  }

  function ReplacementName(name: bytes, uuid: bytes): bytes { Ascii(".") + name + Ascii(".replacement.") + uuid }

  /** Everything before the replacement is created; nothing is changed yet. */
  function Checks(d: Disk, name: bytes, euid: nat, calls: Calls): Outcome<ConfigError> {
    if calls.parent.None? || !calls.parent.value.kind.Directory? then Fail(OpenDirectory)
    else if !calls.parentStat || (calls.parent.value.uid != euid && calls.parent.value.uid != 0)
         || calls.parent.value.mode & GROUP_OR_WORLD_WRITE != 0 then Fail(UnsafeDirectory)
    else if !calls.openOriginal || name !in d.names || d.names[name] !in d.files
        || d.files[d.names[name]].kind.Symlink? then Fail(OpenConfig)
    else if !calls.statOriginal then Fail(StatConfig)
    else ValidateFileMetadata(d.files[d.names[name]], false, euid)
  }

  /** `unlinkat` of the replacement, which fails harmlessly once it was renamed. */
  function CleanedUp(d: Disk, replacement: bytes, works: bool): Disk {
    if works && replacement in d.names then Unlinked(d, replacement) else d
  }

  /** From the look at the current file to the forced-out directory. */
  method SwapIn(volume: Volume, name: bytes, original: nat, replacement: bytes, inode: nat, calls: Calls,
                ghost was: Disk, ghost wanted: File)
      returns (r: Ended)
    requires ValidDisk(was) && name in was.names && was.names[name] == original
    requires name != replacement && inode !in was.files && replacement !in was.names
    requires Filling(was, volume.disk, replacement, inode) && inode in volume.disk.synced
             && volume.disk.files[inode] == wanted
    modifies volume
    ensures r.Done? || r == Thrown(SyncDirectory) ==>
              && volume.disk.names == was.names[name := inode]
              && inode in volume.disk.files && volume.disk.files[inode] == wanted && inode in volume.disk.synced
    ensures r.Done? ==> volume.disk.onDisk == [volume.disk.names]
    ensures r == SwapOutcome(original, calls)
    ensures !r.Done? && r != Thrown(SyncDirectory) ==> volume.disk == old(volume.disk)
    ensures volume.disk.files == old(volume.disk.files)
    ensures Safe(was, volume.disk, name, inode, wanted)
    ensures old(volume.history) <= volume.history
    ensures AllSafe(was, volume.history, |old(volume.history)|, name, inode, wanted)
  {
    FillingIsSafe(was, volume.disk, name, replacement, inode, wanted);
    if calls.current != Some(original) { return Thrown(ConfigChanged); }
    if !calls.rename { return Thrown(ReplaceConfig); }
    volume.Become(Renamed(volume.disk, replacement, name));
    assert volume.disk.names == was.names[name := inode];
    if !calls.syncDirectory { return Thrown(SyncDirectory); }
    volume.Become(NamesSynced(volume.disk));
    return Done;
  }

  lemma CleanUpIsSafe(was: Disk, d: Disk, name: bytes, replacement: bytes, inode: nat, wanted: File, works: bool)
    requires name in was.names && was.names[name] in was.files && name != replacement
    requires Safe(was, d, name, inode, wanted)
    ensures Safe(was, CleanedUp(d, replacement, works), name, inode, wanted)
  {
  }

  method ReplaceConfigFile(volume: Volume, name: bytes, data: bytes, isPrivate: bool, euid: nat, uuid: bytes,
                           inode: nat,
                           calls: Calls, writes: seq<Write>) returns (r: Ended)
    requires ValidDisk(volume.disk) && inode !in volume.disk.files
    modifies volume
    // After every system call, and so before every crash, the configuration is the old one or all of the new one.
    ensures old(volume.history) <= volume.history
    ensures name !in old(volume.disk.names) ==> volume.history == old(volume.history)
    ensures name in old(volume.disk.names) ==>
              var was := old(volume.disk);
              AllSafe(was, volume.history, |old(volume.history)|, name, inode,
                      Wanted(was.files[was.names[name]], data, isPrivate))
    ensures r == ReplaceOutcome(old(volume.disk), name, |data|, euid, uuid, calls, writes)
    // No file that was there before is touched, and nothing at all before the replacement is created.
    ensures forall i :: i in old(volume.disk.files) ==>
              i in volume.disk.files
              && volume.disk.files[i] == old(volume.disk.files)[i]
    ensures r.Thrown? && !Creates(r.error) ==> volume.disk == old(volume.disk)
    // Success: the new file is in place and forced out, and nothing else changed.
    ensures r.Done? ==>
              var was, d := old(volume.disk), volume.disk;
              && Checks(was, name, euid, calls).Pass?
              && d.names == was.names[name := inode]
              && inode in d.files && d.files[inode] == Wanted(was.files[was.names[name]], data, isPrivate)
              && inode in d.synced && d.onDisk == [d.names]
    // Failure: the names are as before, except when only the last sync failed; the replacement is gone if it could be
    // removed.
    ensures r == Thrown(SyncDirectory) ==> volume.disk.names == old(volume.disk.names)[name := inode]
    ensures r.Pending? || (r.Thrown? && Creates(r.error) && r != Thrown(SyncDirectory)) ==>
              volume.disk.names ==
              if r.Thrown? && calls.unlink then old(volume.disk.names)
              else old(volume.disk.names)[ReplacementName(name, uuid) := inode]
  {
    ghost var was := volume.disk;
    var checked := Checks(volume.disk, name, euid, calls);
    if checked.Fail? { return Thrown(checked.error); }
    var originalInode := volume.disk.names[name];
    var original := volume.disk.files[originalInode];
    ghost var wanted := Wanted(original, data, isPrivate);
    var replacement := ReplacementName(name, uuid);
    if !calls.create || replacement in volume.disk.names { return Thrown(CreateReplacement); }
    r := FillReplacement(volume, replacement, inode, data, original, isPrivate, euid, calls, writes, name);
    FillingIsSafe(was, volume.disk, name, replacement, inode, wanted);
    if r.Pending? { return; }
    if r.Done? { r := SwapIn(volume, name, originalInode, replacement, inode, calls, was, wanted); }
    CleanUpIsSafe(was, volume.disk, name, replacement, inode, wanted, calls.unlink);
    if calls.unlink && replacement in volume.disk.names {
      volume.Become(Unlinked(volume.disk, replacement));
      assert volume.disk.names == was.names;
    }
  }

  /**
   A crash in a safe state leaves the original inode with its bytes, or the new one with all of the data and its mode.
   */
  lemma CrashLeavesOldOrNew(was: Disk, d: Disk, name: bytes, inode: nat, wanted: File, names: map<bytes, nat>,
                            files: map<nat, File>)
    requires name in was.names && was.names[name] in was.files && Durable(was, name)
    requires Safe(was, d, name, inode, wanted) && AfterCrash(d, names, files)
    ensures name in names && names[name] in files
    ensures || (names[name] == was.names[name] && files[names[name]] == was.files[was.names[name]])
            || (names[name] == inode && files[inode] == wanted)
  {
    var k :| 0 <= k < |d.onDisk| && d.onDisk[k] == names;
    assert Binds(d.onDisk[k], d, name, was.names[name], inode, wanted);
  }

  /** Permission bits of the replacement: the original's, and nobody else's where private; never writable by others. */
  lemma WantedMode(original: File, data: bytes, isPrivate: bool, euid: nat)
    requires ValidateFileMetadata(original, false, euid).Pass?
    ensures var mode := Wanted(original, data, isPrivate).mode;
            && (!isPrivate ==> mode == original.mode & PERMISSIONS)
            && (isPrivate ==> mode & GROUP_OR_WORLD == 0)
            && mode & GROUP_OR_WORLD_WRITE == 0
            && ValidateFileMetadata(Wanted(original, data, isPrivate), isPrivate, euid).Pass?
  {
  }
}
