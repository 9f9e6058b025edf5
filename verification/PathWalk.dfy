/**
 The two component-by-component path walks: `validate_helper_path` in C (pam/pam_macos_auth.c) and `trust::open`
 in Rust (crates/helper/src/trust.rs), over a file system that may be different at every system call.
 */
module PathWalks {
  import opened Bytes
  import opened FileModes

  const SLASH: byte := '/' as int
  const DOT := Ascii(".")
  const DOT_DOT := Ascii("..")

  // ---- Names in a path ----

  function SkipSlashes(s: bytes): (r: bytes)
    ensures |r| <= |s|
  {
    if s != [] && s[0] == SLASH then SkipSlashes(s[1..]) else s
  }

  function UpToSlash(s: bytes): (r: bytes)
    ensures |r| <= |s|
    ensures |r| < |s| ==> s[|r|] == SLASH
  {
    if s == [] || s[0] == SLASH then [] else [s[0]] + UpToSlash(s[1..])
  }

  /** `strtok_r` on "/": the next token and what is left. */
  function Strtok(rest: bytes): (r: Option<(bytes, bytes)>)
    ensures r.Some? ==> |r.value.1| < |rest|
  {
    var s := SkipSlashes(rest);
    if s == [] then None
    else
      var token := UpToSlash(s);
      Some((token, s[Min(|token| + 1, |s|)..]))
  }

  function Tokens(s: bytes): seq<bytes>
    decreases |s|
  {
    match Strtok(s)
    case None => []
    case Some((token, rest)) => [token] + Tokens(rest)
  }

  predicate DotFree(names: seq<bytes>) { DOT !in names && DOT_DOT !in names }

  /** The token in hand and those still to come. */
  function Remaining(component: Option<(bytes, bytes)>): seq<bytes> {
    match component
    case None => []
    case Some((token, rest)) => [token] + Tokens(rest)
  }

  /** `k` names without dots have been taken, and `component` starts what is left. */
  predicate Taken(names: seq<bytes>, k: nat, component: Option<(bytes, bytes)>) {
    k <= |names| && DotFree(names[..k]) && names[k..] == Remaining(component)
  }

  lemma TakenNone(path: bytes)
    ensures Taken(Tokens(path), 0, Strtok(path))
  {
    assert Tokens(path) == Remaining(Strtok(path));
  }

  lemma TakenOne(names: seq<bytes>, k: nat, component: Option<(bytes, bytes)>)
    requires Taken(names, k, component) && component.Some?
    ensures k < |names| && names[k] == component.value.0
    ensures Strtok(component.value.1).Some? <==> k + 1 < |names|
    ensures if component.value.0 == DOT || component.value.0 == DOT_DOT then !DotFree(names)
            else Taken(names, k + 1, Strtok(component.value.1))
  {
    assert names[k] == names[k..][0];
    assert names[k + 1..] == names[k..][1..];
    assert names[..k + 1] == names[..k] + [names[k]];
  }

  lemma TakenAll(names: seq<bytes>, k: nat)
    requires Taken(names, k, None)
    ensures k == |names| && DotFree(names)
  {
    assert names[..k] == names;
  }

  /** `Path::components` sees what lies between slashes. */
  function Pieces(s: bytes): (r: seq<bytes>)
    ensures r != []
    decreases |s|
  {
    var piece := UpToSlash(s);
    if |piece| == |s| then [piece] else [piece] + Pieces(s[|piece| + 1..])
  }

  function NonEmpty(pieces: seq<bytes>): seq<bytes> {
    if pieces == [] then []
    else if pieces[0] == [] then NonEmpty(pieces[1..])
    else [pieces[0]] + NonEmpty(pieces[1..])
  }

  lemma TokensAtSlash(s: bytes)
    requires s != [] && s[0] == SLASH
    ensures Tokens(s) == Tokens(s[1..]) && NonEmpty(Pieces(s)) == NonEmpty(Pieces(s[1..]))
  {
    assert Strtok(s) == Strtok(s[1..]);
    assert Pieces(s) == [[]] + Pieces(s[1..]);
  }

  lemma TokensAtName(s: bytes)
    requires s != [] && s[0] != SLASH
    ensures UpToSlash(s) != [] && Tokens(s) == [UpToSlash(s)] + Tokens(s[Min(|UpToSlash(s)| + 1, |s|)..])
  {
    assert Strtok(s) == Some((UpToSlash(s), s[Min(|UpToSlash(s)| + 1, |s|)..]));
  }

  lemma PiecesAtName(s: bytes)
    requires s != [] && s[0] != SLASH && |UpToSlash(s)| < |s|
    ensures NonEmpty(Pieces(s)) == [UpToSlash(s)] + NonEmpty(Pieces(s[|UpToSlash(s)| + 1..]))
  {
    assert Pieces(s) == [UpToSlash(s)] + Pieces(s[|UpToSlash(s)| + 1..]);
  }

  /** The C tokens are the pieces between slashes that are not empty. */
  lemma {:induction false} TokensArePieces(s: bytes)
    ensures Tokens(s) == NonEmpty(Pieces(s))
    decreases |s|
  {
    if s == [] {
    } else if s[0] == SLASH {
      TokensAtSlash(s);
      TokensArePieces(s[1..]);
    } else {
      var next := Min(|UpToSlash(s)| + 1, |s|);
      TokensAtName(s);
      if |UpToSlash(s)| < |s| { PiecesAtName(s); TokensArePieces(s[next..]); }
    }
  }

  /** The names Rust walks through: "." is dropped, ".." and embedded zero bytes are refused. */
  function Components(pieces: seq<bytes>): Option<seq<bytes>> {
    if pieces == [] then Some([])
    else if pieces[0] == [] || pieces[0] == DOT then Components(pieces[1..])
    else if pieces[0] == DOT_DOT || 0 in pieces[0] then None
    else
      match Components(pieces[1..])
      case None => None
      case Some(rest) => Some([pieces[0]] + rest)
  }

  /** Whenever no "." is written, Rust walks through the C tokens, or refuses for "..". */
  lemma {:induction false} ComponentsWithoutDot(pieces: seq<bytes>)
    requires DOT !in NonEmpty(pieces)
    requires forall i :: 0 <= i < |pieces| ==> 0 !in pieces[i]
    ensures Components(pieces) == if DOT_DOT in NonEmpty(pieces) then None else Some(NonEmpty(pieces))
  {
    if pieces != [] {
      assert pieces[0] != [] ==> pieces[0] == NonEmpty(pieces)[0] && pieces[0] in NonEmpty(pieces);
      assert 0 !in pieces[0];
      ComponentsWithoutDot(pieces[1..]);
    }
  }

  lemma {:induction false} PiecesHaveNoZero(s: bytes)
    requires 0 !in s
    ensures forall i :: 0 <= i < |Pieces(s)| ==> 0 !in Pieces(s)[i]
    decreases |s|
  {
    var piece := UpToSlash(s);
    UpToSlashIsPrefix(s);
    if |piece| < |s| { PiecesHaveNoZero(s[|piece| + 1..]); }
  }

  lemma UpToSlashIsPrefix(s: bytes)
    ensures UpToSlash(s) <= s
  {
  }

  // ---- The file system ----

  type Inode = nat

  datatype Metadata = Metadata(kind: Kind, owner: nat, mode: bv16)

  datatype FileSystem = FileSystem(root: Inode, metadata: Inode -> Metadata, entry: (Inode, bytes) -> Option<Inode>)

  /** The file system at one system call, and whether that call works at all. */
  datatype Moment = Moment(fs: FileSystem, works: bool)

  type World = nat -> Moment

  function OpenRoot(m: Moment): Option<Inode> {
    if m.works && m.fs.metadata(m.fs.root).kind.Directory? then Some(m.fs.root) else None
  }

  /** `openat` with O_NOFOLLOW, and O_DIRECTORY if `directory`. */
  function OpenAt(m: Moment, from: Inode, name: bytes, directory: bool): Option<Inode> {
    var child := m.fs.entry(from, name);
    if !m.works || !m.fs.metadata(from).kind.Directory? || child.None? then None
    else
      var kind := m.fs.metadata(child.value).kind;
      if kind.Symlink? || (directory && !kind.Directory?) then None else child
  }

  /** `trusted_metadata`. */
  predicate Trusted(m: Metadata, directory: bool) {
    && m.owner == 0 && m.mode & GROUP_OR_WORLD_WRITE == 0
    && if directory then m.kind.Directory? else m.kind.Regular? && m.mode & OWNER_EXECUTE != 0
  }

  /** `trust::validate`. */
  predicate Valid(m: Metadata, rootOwned: bool, directory: bool, isPrivate: bool) {
    if directory != m.kind.Directory? || (!directory && !m.kind.Regular?) then false
    else if rootOwned && m.owner != 0 then false
    else m.mode & (if isPrivate then GROUP_OR_WORLD else GROUP_OR_WORLD_WRITE) == 0
  }

  // ---- A walk ----

  /** What is asked of the last name, and for Rust also who has to own the way there. */
  datatype Walker = CWalker | RustWalker(rootOwned: bool, directory: bool, isPrivate: bool)

  predicate EndsInDirectory(w: Walker) { w.RustWalker? && w.directory }

  /** The check of one handle. */
  predicate Accepts(w: Walker, last: bool, m: Metadata) {
    match w
    case CWalker => Trusted(m, !last)
    case RustWalker(rootOwned, directory, isPrivate) => Valid(m, rootOwned, !last || directory, last && isPrivate)
  }

  predicate Passes(m: Moment, handle: Inode, w: Walker, last: bool) {
    m.works && Accepts(w, last, m.fs.metadata(handle))
  }

  /** Name `k` is opened relative to `from` at moment 2k+2; the handle got is checked at moment 2k+3. */
  predicate StepTaken(world: World, names: seq<bytes>, w: Walker, k: nat, from: Inode, to: Inode) {
    && k < |names|
    && OpenAt(world(2 * k + 2), from, names[k], k + 1 < |names| || EndsInDirectory(w)) == Some(to)
    && Passes(world(2 * k + 3), to, w, k + 1 == |names|)
  }

  /**
   The first handle is the root, every next one was opened relative to the one before, and each one passed when
   opened.
   */
  ghost predicate Walked(world: World, names: seq<bytes>, w: Walker, handles: seq<Inode>) {
    && 0 < |handles| <= |names| + 1
    && OpenRoot(world(0)) == Some(handles[0]) && Passes(world(1), handles[0], w, false)
    && forall k :: 0 <= k < |handles| - 1 ==> StepTaken(world, names, w, k, handles[k], handles[k + 1])
  }

  /** Some complete walk ends at `end`. */
  ghost predicate WalksTo(world: World, names: seq<bytes>, w: Walker, end: Inode) {
    exists handles :: Walked(world, names, w, handles) && |handles| == |names| + 1 && handles[|names|] == end
  }

  /** The handle after `k` names, if the walk gets that far. */
  function HandleAfter(world: World, names: seq<bytes>, w: Walker, k: nat): Option<Inode>
    requires k <= |names|
  {
    if k == 0 then
      var root := OpenRoot(world(0));
      if root.Some? && Passes(world(1), root.value, w, false) then root else None
    else
      match HandleAfter(world, names, w, k - 1)
      case None => None
      case Some(from) => NextHandle(world, names, w, k - 1, from)
  }

  function NextHandle(world: World, names: seq<bytes>, w: Walker, k: nat, from: Inode): Option<Inode>
    requires k < |names|
  {
    var child := OpenAt(world(2 * k + 2), from, names[k], k + 1 < |names| || EndsInDirectory(w));
    if child.Some? && Passes(world(2 * k + 3), child.value, w, k + 1 == |names|) then child else None
  }

  lemma {:induction false} StaysLost(world: World, names: seq<bytes>, w: Walker, k: nat, n: nat)
    requires k <= n <= |names| && HandleAfter(world, names, w, k) == None
    ensures HandleAfter(world, names, w, n) == None
  {
    if k < n { StaysLost(world, names, w, k, n - 1); }
  }

  lemma {:induction false} WalkedHandles(world: World, names: seq<bytes>, w: Walker, handles: seq<Inode>, k: nat)
    requires Walked(world, names, w, handles) && k < |handles|
    ensures HandleAfter(world, names, w, k) == Some(handles[k])
    decreases k
  {
    if k > 0 {
      var j: nat := k - 1;
      WalkedHandles(world, names, w, handles, j);
      assert StepTaken(world, names, w, j, handles[j], handles[j + 1]);
    }
  }

  lemma OneMoreHandle(world: World, names: seq<bytes>, w: Walker, before: seq<Inode>, to: Inode)
    requires Walked(world, names, w, before) && StepTaken(world, names, w, |before| - 1, before[|before| - 1], to)
    ensures Walked(world, names, w, before + [to])
  {
    var handles := before + [to];
    forall k | 0 <= k < |handles| - 1 ensures StepTaken(world, names, w, k, handles[k], handles[k + 1]) {
      if k < |before| - 1 { assert StepTaken(world, names, w, k, before[k], before[k + 1]); }
    }
  }

  lemma {:induction false} HandlesOfWalk(world: World, names: seq<bytes>, w: Walker, k: nat)
        returns (handles: seq<Inode>)
    requires k <= |names| && HandleAfter(world, names, w, k).Some?
    ensures Walked(world, names, w, handles) && |handles| == k + 1
    ensures Some(handles[k]) == HandleAfter(world, names, w, k)
  {
    var to := HandleAfter(world, names, w, k).value;
    if k == 0 {
      handles := [to];
    } else {
      var j := k - 1;
      var before := HandlesOfWalk(world, names, w, j);
      handles := before + [to];
      OneMoreHandle(world, names, w, before, to);
    }
  }

  /** At most one handle is walked to, and stepping from handle to handle finds it. */
  lemma WalksToExactly(world: World, names: seq<bytes>, w: Walker, end: Inode)
    ensures WalksTo(world, names, w, end) <==> HandleAfter(world, names, w, |names|) == Some(end)
  {
    if WalksTo(world, names, w, end) {
      var handles :| Walked(world, names, w, handles) && |handles| == |names| + 1 && handles[|names|] == end;
      WalkedHandles(world, names, w, handles, |names|);
    }
    if HandleAfter(world, names, w, |names|) == Some(end) {
      var handles := HandlesOfWalk(world, names, w, |names|);
    }
  }

  // ---- C ----

  /** Absolute, not the root itself, no slash at the end, and no "." or ".." anywhere. */
  predicate CSyntax(path: bytes) {
    |path| >= 2 && path[0] == SLASH && path[|path| - 1] != SLASH && DotFree(Tokens(path))
  }

  function CAccepted(world: World, path: bytes): Option<Inode> {
    if CSyntax(path) then HandleAfter(world, Tokens(path), CWalker, |Tokens(path)|) else None
  }

  /** One turn of the C loop. */
  function CStep(world: World, k: nat, from: Inode, name: bytes, more: bool): Option<Inode> {
    var child := OpenAt(world(2 * k + 2), from, name, more);
    if child.Some? && world(2 * k + 3).works && Trusted(world(2 * k + 3).fs.metadata(child.value), more) then child
        else None
  }

  lemma CStepIsNextHandle(world: World, names: seq<bytes>, k: nat, from: Inode)
    requires k < |names| && HandleAfter(world, names, CWalker, k) == Some(from)
    ensures HandleAfter(world, names, CWalker, k + 1) == CStep(world, k, from, names[k], k + 1 < |names|)
  {
  }

  /** The loop; `left` counts the descriptors still open on return. */
  method WalkTokens(path: bytes, world: World) returns (fd: Option<Inode>, left: nat)
    ensures var names := Tokens(path); fd == if DotFree(names) then HandleAfter(world, names, CWalker, |names|)
            else None
    ensures left == if fd.Some? then 1 else 0
  {
    fd := OpenRoot(world(0));
    left := if fd.Some? then 1 else 0;
    var valid := fd.Some? && world(1).works && Trusted(world(1).fs.metadata(fd.value), true);
    ghost var names := Tokens(path);
    var k: nat := 0;
    var component := Strtok(path);
    TakenNone(path);
    while valid && component.Some?
      invariant left == if fd.Some? then 1 else 0
      invariant Taken(names, k, component)
      invariant HandleAfter(world, names, CWalker, k) == if valid then fd else None
      invariant valid ==> fd.Some?
      decreases if component.Some? then |component.value.1| + 1 else 0
    {
      TakenOne(names, k, component);
      if component.value.0 == DOT || component.value.0 == DOT_DOT {
        if fd.Some? { left := left - 1; }
        return None, left;
      }
      CStepIsNextHandle(world, names, k, fd.value);
      var next := Strtok(component.value.1);
      var child := OpenAt(world(2 * k + 2), fd.value, component.value.0, next.Some?);
      left := left - 1;
      fd := child;
      if fd.Some? { left := left + 1; }
      valid := fd.Some? && world(2 * k + 3).works && Trusted(world(2 * k + 3).fs.metadata(fd.value), next.Some?);
      component := next;
      k := k + 1;
    }
    if !valid {
      StaysLost(world, names, CWalker, k, |names|);
      if fd.Some? { left := left - 1; }
      return None, left;
    }
    TakenAll(names, k);
  }

  method ValidateHelperPath(helperPath: Option<bytes>, memory: bool, world: World)
        returns (fd: Option<Inode>, left: nat)
    ensures fd == if helperPath.Some? && memory then CAccepted(world, helperPath.value) else None
    ensures left == if fd.Some? then 1 else 0
  {
    if helperPath.None? || helperPath.value == [] || helperPath.value[0] != SLASH { return None, 0; }
    var path := helperPath.value;
    if |path| < 2 || path[|path| - 1] == SLASH { return None, 0; }
    if !memory { return None, 0; }
    fd, left := WalkTokens(path, world);
  }

  // ---- Rust ----

  predicate Absolute(path: bytes) { path != [] && path[0] == SLASH }

  function Join(base: bytes, path: bytes): bytes {
    if base == [] || base[|base| - 1] == SLASH then base + path else base + [SLASH] + path
  }

  /** The absolute form of a path; only a root-owned one has to be absolute as it stands. */
  function Absolutely(path: bytes, workingDirectory: Option<bytes>, rootOwned: bool): Option<bytes> {
    if Absolute(path) then Some(path)
    else if rootOwned || workingDirectory.None? then None
    else Some(Join(workingDirectory.value, path))
  }

  /** The walk ends at a file that passes the check for the kind asked for once more. */
  function RustAccepted(world: World, absolute: bytes, rootOwned: bool, directory: bool,
                        isPrivate: bool): Option<Inode> {
    match Components(Pieces(absolute))
    case None => None
    case Some(names) =>
      var file, m := HandleAfter(world, names, RustWalker(rootOwned, directory, isPrivate), |names|),
      world(2 * |names| + 2);
      if file.None? || !m.works || !Valid(m.fs.metadata(file.value), rootOwned, directory, isPrivate) then None
          else file
  }

  method CollectComponents(path: bytes) returns (names: Option<seq<bytes>>)
    ensures names == Components(Pieces(path))
  {
    var pieces := Pieces(path);
    var found: seq<bytes> := [];
    assert pieces[0..] == pieces;
    assert forall rest: seq<bytes> :: [] + rest == rest;
    for i := 0 to |pieces|
      invariant Components(pieces) ==
                match Components(pieces[i..]) { case None => None case Some(rest) => Some(found + rest) }
    {
      assert pieces[i..][1..] == pieces[i + 1..];
      if pieces[i] == [] || pieces[i] == DOT { continue; }
      if pieces[i] == DOT_DOT || 0 in pieces[i] { return None; }
      assert forall rest: seq<bytes> :: found + ([pieces[i]] + rest) == found + [pieces[i]] + rest;
      found := found + [pieces[i]];
    }
    assert pieces[|pieces|..] == [] && found + [] == found;
    return Some(found);
  }

  /** One turn of the Rust loop. */
  function RustStep(world: World, k: nat, from: Inode, name: bytes, rootOwned: bool, directory: bool,
                    isPrivate: bool): Option<Inode> {
    var child := OpenAt(world(2 * k + 2), from, name, directory);
    var m := world(2 * k + 3);
    if child.Some? && m.works && Valid(m.fs.metadata(child.value), rootOwned, directory, isPrivate) then child else None
  }

  lemma RustStepIsNextHandle(world: World, names: seq<bytes>, rootOwned: bool, directory: bool, isPrivate: bool,
                             k: nat, from: Inode)
    requires k < |names| && HandleAfter(world, names, RustWalker(rootOwned, directory, isPrivate), k) == Some(from)
    ensures var last := k + 1 == |names|;
            HandleAfter(world, names, RustWalker(rootOwned, directory, isPrivate), k + 1)
            == RustStep(world, k, from, names[k], rootOwned, !last || directory, last && isPrivate)
  {
  }

  /** From the root down, name by name. */
  method Descend(names: seq<bytes>, rootOwned: bool, directory: bool, isPrivate: bool, world: World)
        returns (file: Option<Inode>)
    ensures file == HandleAfter(world, names, RustWalker(rootOwned, directory, isPrivate), |names|)
  {
    ghost var w := RustWalker(rootOwned, directory, isPrivate);
    file := OpenRoot(world(0));
    if file.None? || !world(1).works || !Valid(world(1).fs.metadata(file.value), rootOwned, true, false) {
      StaysLost(world, names, w, 0, |names|);
      return None;
    }
    for index := 0 to |names|
      invariant file.Some? && HandleAfter(world, names, w, index) == file
    {
      var last := index + 1 == |names|;
      var isDirectory := !last || directory;
      RustStepIsNextHandle(world, names, rootOwned, directory, isPrivate, index, file.value);
      file := OpenAt(world(2 * index + 2), file.value, names[index], isDirectory);
      var m := world(2 * index + 3);
      if file.None? || !m.works || !Valid(m.fs.metadata(file.value), rootOwned, isDirectory, last && isPrivate) {
        StaysLost(world, names, w, index + 1, |names|);
        return None;
      }
    }
  }

  method Open(path: bytes, workingDirectory: Option<bytes>, rootOwned: bool, directory: bool, isPrivate: bool,
              world: World)
      returns (file: Option<Inode>)
    ensures var absolute := Absolutely(path, workingDirectory, rootOwned);
            file == if absolute.Some? then RustAccepted(world, absolute.value, rootOwned, directory, isPrivate)
                else None
  {
    if rootOwned && !Absolute(path) { return None; }
    var absolute := path;
    if !Absolute(path) {
      if workingDirectory.None? { return None; }
      absolute := Join(workingDirectory.value, path);
    }
    var components := CollectComponents(absolute);
    if components.None? { return None; }
    var names := components.value;
    file := Descend(names, rootOwned, directory, isPrivate, world);
    var m := world(2 * |names| + 2);
    if file.None? || !m.works || !Valid(m.fs.metadata(file.value), rootOwned, directory, isPrivate) { return None; }
    return file;
  }

  // ---- The two on a file system that stays as it is ----

  ghost predicate Still(world: World, fs: FileSystem) { forall t :: world(t) == Moment(fs, true) }

  /** C asks for exactly what Rust asks for of a root-owned, public file, and for the owner's execute bit at the end. */
  lemma ChecksAgree(m: Metadata, last: bool)
    ensures Accepts(CWalker, last, m) <==>
            Accepts(RustWalker(true, false, false), last, m) && (last ==> m.mode & OWNER_EXECUTE != 0)
  {
  }

  lemma TokensNotEmpty(path: bytes)
    requires path != [] && path[|path| - 1] != SLASH
    ensures Tokens(path) != []
  {
    SkipKeepsEnd(path);
  }

  lemma {:induction false} SkipKeepsEnd(s: bytes)
    requires s != [] && s[|s| - 1] != SLASH
    ensures SkipSlashes(s) != []
  {
    if s[0] == SLASH { SkipKeepsEnd(s[1..]); }
  }

  lemma {:induction false} StillWalksAgree(world: World, fs: FileSystem, names: seq<bytes>, k: nat)
    requires Still(world, fs) && k <= |names|
    ensures var c, rust := HandleAfter(world, names, CWalker, k), HandleAfter(world, names,
            RustWalker(true, false, false), k);
            c == if 0 < k == |names| && rust.Some? && fs.metadata(rust.value).mode & OWNER_EXECUTE == 0 then None
                else rust
  {
    var rust := RustWalker(true, false, false);
    if k == 0 {
      assert world(0) == Moment(fs, true) && world(1) == Moment(fs, true);
      ChecksAgree(fs.metadata(fs.root), false);
    } else {
      var j: nat := k - 1;
      StillWalksAgree(world, fs, names, j);
      var from := HandleAfter(world, names, rust, j);
      if from.Some? {
        assert world(2 * j + 2) == Moment(fs, true) && world(2 * j + 3) == Moment(fs, true);
        var child := OpenAt(world(2 * j + 2), from.value, names[j], k < |names|);
        if child.Some? { ChecksAgree(fs.metadata(child.value), k == |names|); }
      }
    }
  }

  /** On a file system that stays as it is, Rust's last check repeats the one before. */
  lemma LastCheckRepeats(world: World, fs: FileSystem, names: seq<bytes>)
    requires Still(world, fs) && names != []
    ensures var file := HandleAfter(world, names, RustWalker(true, false, false), |names|);
            file.Some? ==> Valid(fs.metadata(file.value), true, false, false)
  {
    var j := |names| - 1;
    assert world(2 * j + 3) == Moment(fs, true);
  }

  /**
   C accepts a file exactly when Rust accepts it as a root-owned, public file, the path is written the way C
   insists on, and the owner may execute it.
   */
  lemma WalkersAgree(world: World, fs: FileSystem, path: bytes, file: Inode)
    requires Still(world, fs) && 0 !in path
    ensures CAccepted(world, path) == Some(file) <==>
            && CSyntax(path) && RustAccepted(world, path, true, false, false) == Some(file)
            && fs.metadata(file).mode & OWNER_EXECUTE != 0
  {
    if CSyntax(path) {
      var names := Tokens(path);
      TokensArePieces(path);
      PiecesHaveNoZero(path);
      ComponentsWithoutDot(Pieces(path));
      TokensNotEmpty(path);
      StillWalksAgree(world, fs, names, |names|);
      LastCheckRepeats(world, fs, names);
      assert world(2 * |names| + 2) == Moment(fs, true);
    }
  }

  // ---- What an accepted path is worth ----

  /** Root owns it and nobody else may write it. */
  predicate RootOnly(m: Metadata) { m.owner == 0 && m.mode & GROUP_OR_WORLD_WRITE == 0 }

  /**
   Only root changes what is root's alone, and root changes nothing meanwhile; all else may change at every moment.
   */
  ghost predicate Guarded(world: World) { forall t :: GuardedAt(world, t) }

  ghost predicate GuardedAt(world: World, t: nat) {
    var before, after := world(t).fs, world(t + 1).fs;
    && after.root == before.root
    && (forall x :: RootOnly(before.metadata(x)) ==> after.metadata(x) == before.metadata(x))
    && (forall x, name :: RootOnly(before.metadata(x)) ==> after.entry(x, name) == before.entry(x, name))
  }

  lemma {:induction false} GuardedLasts(world: World, x: Inode, name: bytes, from: nat, t: nat)
    requires Guarded(world) && RootOnly(world(from).fs.metadata(x)) && from <= t
    ensures world(t).fs.metadata(x) == world(from).fs.metadata(x)
    ensures world(t).fs.entry(x, name) == world(from).fs.entry(x, name)
    decreases t
  {
    if from < t {
      var before: nat := t - 1;
      GuardedLasts(world, x, name, from, before);
      assert GuardedAt(world, before);
    }
  }

  lemma {:induction false} RootLasts(world: World, t: nat)
    requires Guarded(world)
    ensures world(t).fs.root == world(0).fs.root
  {
    if t > 0 {
      var before: nat := t - 1;
      RootLasts(world, before);
      assert GuardedAt(world, before);
    }
  }

  /** What a path names, entry by entry. */
  function Resolve(fs: FileSystem, names: seq<bytes>): Option<Inode> {
    if names == [] then Some(fs.root)
    else
      match Resolve(fs, names[..|names| - 1])
      case None => None
      case Some(parent) => fs.entry(parent, names[|names| - 1])
  }

  /** A walker that never accepts what others than root may write. */
  predicate Careful(w: Walker) { w.CWalker? || w.rootOwned }

  lemma CarefulAcceptsRootOnly(w: Walker, last: bool, m: Metadata)
    requires Careful(w) && Accepts(w, last, m)
    ensures RootOnly(m)
  {
    PrivateIsStricter(m.mode);
  }

  lemma HandleLasts(world: World, names: seq<bytes>, w: Walker, handles: seq<Inode>, k: nat, name: bytes, t: nat)
    requires Guarded(world) && Careful(w) && Walked(world, names, w, handles) && k < |handles| && t >= 2 * k + 1
    ensures RootOnly(world(t).fs.metadata(handles[k]))
    ensures world(t).fs.metadata(handles[k]) == world(2 * k + 1).fs.metadata(handles[k])
    ensures world(t).fs.entry(handles[k], name) == world(2 * k + 1).fs.entry(handles[k], name)
  {
    if k > 0 {
      var j := k - 1;
      assert StepTaken(world, names, w, j, handles[j], handles[j + 1]);
      CarefulAcceptsRootOnly(w, k == |names|, world(2 * k + 1).fs.metadata(handles[k]));
    } else {
      CarefulAcceptsRootOnly(w, false, world(1).fs.metadata(handles[0]));
    }
    GuardedLasts(world, handles[k], name, 2 * k + 1, t);
  }

  lemma {:induction false} HandlesStayNamed(world: World, names: seq<bytes>, w: Walker, handles: seq<Inode>, k: nat,
                                            t: nat)
    requires Guarded(world) && Careful(w) && Walked(world, names, w, handles) && k < |handles| && t >= 2 * k + 1
    ensures Resolve(world(t).fs, names[..k]) == Some(handles[k])
    decreases k
  {
    if k == 0 {
      RootLasts(world, t);
    } else {
      var j: nat := k - 1;
      HandlesStayNamed(world, names, w, handles, j, t);
      HandleLasts(world, names, w, handles, j, names[j], t);
      HandleLasts(world, names, w, handles, j, names[j], 2 * j + 2);
      assert StepTaken(world, names, w, j, handles[j], handles[j + 1]);
      assert names[..k][..|names[..k]| - 1] == names[..j] && names[..k][j] == names[j];
    }
  }

  lemma LastWasAccepted(world: World, names: seq<bytes>, w: Walker, handles: seq<Inode>)
    requires Walked(world, names, w, handles) && |handles| == |names| + 1
    ensures var m := world(2 * |names| + 1); m.works && Accepts(w, names != [], m.fs.metadata(handles[|names|]))
  {
    if names != [] {
      var j := |names| - 1;
      assert StepTaken(world, names, w, j, handles[j], handles[j + 1]);
    }
  }

  lemma WalkLasts(world: World, names: seq<bytes>, w: Walker, end: Inode, t: nat)
    requires Guarded(world) && Careful(w) && HandleAfter(world, names, w, |names|) == Some(end) && t >= 2 * |names| + 1
    ensures Resolve(world(t).fs, names) == Some(end) && RootOnly(world(t).fs.metadata(end))
    ensures world(t).fs.metadata(end) == world(2 * |names| + 1).fs.metadata(end)
    ensures world(2 * |names| + 1).works && Accepts(w, names != [], world(2 * |names| + 1).fs.metadata(end))
  {
    var handles := HandlesOfWalk(world, names, w, |names|);
    HandlesStayNamed(world, names, w, handles, |names|, t);
    HandleLasts(world, names, w, handles, |names|, [], t);
    assert names[..|names|] == names;
    LastWasAccepted(world, names, w, handles);
  }

  /**
   Why the walk checks every ancestor: once C accepts a helper, its path names that very file at every later
   moment, and the file stays a root-owned executable no one else may write, whatever others do in between.
   */
  lemma AcceptedHelperLasts(world: World, path: bytes, fd: Inode, t: nat)
    requires Guarded(world) && CAccepted(world, path) == Some(fd) && t >= 2 * |Tokens(path)| + 1
    ensures Resolve(world(t).fs, Tokens(path)) == Some(fd) && Trusted(world(t).fs.metadata(fd), false)
  {
    TokensNotEmpty(path);
    WalkLasts(world, Tokens(path), CWalker, fd, t);
  }

  /** The same for every path Rust accepts as root-owned. */
  lemma AcceptedFileLasts(world: World, path: bytes, directory: bool, isPrivate: bool, file: Inode, t: nat)
    requires Guarded(world) && RustAccepted(world, path, true, directory, isPrivate) == Some(file)
    requires t >= 2 * |Components(Pieces(path)).value| + 2
    ensures Resolve(world(t).fs, Components(Pieces(path)).value) == Some(file)
    ensures Valid(world(t).fs.metadata(file), true, directory, isPrivate)
  {
    var names, w := Components(Pieces(path)).value, RustWalker(true, directory, isPrivate);
    WalkLasts(world, names, w, file, t);
    WalkLasts(world, names, w, file, 2 * |names| + 2);
  }
}
