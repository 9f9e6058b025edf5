/**
 The release collector and the verifier of what it publishes (packaging/release/artifacts.py). Directories are maps
 from names to entries; files are texts; nothing else edits them meanwhile.
 */
module Collector {
  import opened Bytes

  // ---- Names ----

  predicate EndsWith(s: string, suffix: string) { |suffix| <= |s| && s[|s| - |suffix|..] == suffix }

  predicate StartsWith(s: string, prefix: string) { prefix <= s }

  /** `path.suffix in (".deb", ".rpm", ".pkg")`: a leading dot starts no suffix. */
  predicate HasPackageSuffix(n: string) {
    |n| > 4 && (EndsWith(n, ".deb") || EndsWith(n, ".rpm") || EndsWith(n, ".pkg"))
  }

  predicate IsPackage(n: string) { HasPackageSuffix(n) && !EndsWith(n, "-signed.pkg") }

  function MetadataName(n: string): string { n + ".metadata.json" }

  function ChecksumName(n: string): string { n + ".sha256" }

  const INDEX := "BUILD-METADATA.txt"
  const MAC_INDEX := "BUILD-METADATA-darwin-arm64.txt"
  const SUMS := "SHA256SUMS"
  const MAC_SUMS := "SHA256SUMS-darwin-arm64"

  /** What `clean` removes, unless it is a directory. */
  predicate Cleanable(n: string) {
    || n in {SUMS, MAC_SUMS, INDEX, MAC_INDEX} || HasPackageSuffix(n)
    || EndsWith(n, ".deb.metadata.json") || EndsWith(n, ".rpm.metadata.json") || EndsWith(n, ".pkg.metadata.json")
    || EndsWith(n, ".deb.sha256") || EndsWith(n, ".rpm.sha256") || EndsWith(n, ".pkg.sha256")
  }

  predicate IsDigit(c: char) { '0' <= c <= '9' }

  function AfterDigits(s: string): string { if s != [] && IsDigit(s[0]) then AfterDigits(s[1..]) else s }

  predicate IsNumber(s: string, rest: string) { s != [] && IsDigit(s[0]) && AfterDigits(s) == rest }

  predicate SuffixCharacter(c: char) { IsDigit(c) || 'a' <= c <= 'z' || 'A' <= c <= 'Z' || c == '.' }

  /** Three dotted numbers, and possibly "-" or "+" with letters, digits and dots. */
  predicate ValidVersion(v: string) {
    var afterMajor := AfterDigits(v);
    IsNumber(v, afterMajor) && afterMajor != [] && afterMajor[0] == '.'
    && var minor := afterMajor[1..]; var afterMinor := AfterDigits(minor);
    IsNumber(minor, afterMinor) && afterMinor != [] && afterMinor[0] == '.'
    && var patch := afterMinor[1..]; var extra := AfterDigits(patch);
    IsNumber(patch, extra)
    && (extra == [] || (|extra| >= 2 && extra[0] in {'-', '+'} && forall i :: 1 <= i < |extra| ==>
                        SuffixCharacter(extra[i])))
  }

  predicate LinuxTarget(distro: string, arch: string) {
    || (distro in {"ubuntu24.04", "ubuntu25.10"} && arch == "arm64")
    || (distro in {"rhel9", "rhel10"} && arch == "aarch64")
  }

  function ArtifactName(version: string, distro: string, arch: string, state: string): Option<string> {
    if !ValidVersion(version) then None
    else if LinuxTarget(distro, arch) then
      if state != "linux" then None
      else if StartsWith(distro, "ubuntu") then Some("macos-auth_" + version + "_" + distro + "_" + arch + ".deb")
      else Some("macos-auth-" + version + "-1." + distro + "." + arch + ".rpm")
    else if distro == "darwin" && arch == "arm64" && state in {"unsigned", "signed", "notarized"} then
      Some("macos-auth-" + version + "-darwin-arm64" + (if state == "signed" then "-signed" else "") + ".pkg")
    else None
  }

  // ---- Files and provenance ----

  datatype Entry = Regular(text: string) | Symlink | SubDirectory

  type Directory = map<string, Entry>

  datatype Source = Source(commit: string, tree: string, archive: string, clean: bool, snapshot: string)

  datatype SignedInput = SignedInput(artifact: string, sha256: string, metadataSha256: string)

  datatype Record = Record(
    schema: nat, version: string, distro: string, arch: string, state: string, artifact: string, sha256: string,
    source: Source, signedInput: Option<SignedInput>, notarizedAt: string)

  /** `collector` stands for who collected and when. */
  datatype Index = Index(
    schema: nat, kind: string, version: string, source: Expected, collector: string, artifacts: seq<(string, string)>)

  datatype Expected = Expected(commit: string, tree: string, archive: string, clean: bool)

  /** What the Python libraries provide: SHA-256, JSON, and the order of names. */
  datatype Library = Library(
    digest: string -> string,
    parse: string -> Option<Record>,
    writeIndex: Index -> string,
    readIndex: string -> Option<Index>,
    sorted: set<string> -> seq<string>)

  ghost predicate Sound(lib: Library) {
    && (forall a, b :: lib.digest(a) == lib.digest(b) ==> a == b)
    && (forall i :: lib.readIndex(lib.writeIndex(i)) == Some(i))
    && (forall s, n :: n in lib.sorted(s) <==> n in s)
  }

  /** What is being released. */
  datatype Release = Release(version: string, expected: Expected)

  const SCHEMA: nat := 1

  function PackageFiles(d: Directory): set<string> { set n | n in d && IsPackage(n) }

  /** The text of a regular file; nothing else is read. */
  function TextOf(d: Directory, n: string): string { if n in d && d[n].Regular? then d[n].text else "" }

  predicate IsRegular(d: Directory, n: string) { n in d && d[n].Regular? }

  predicate IsSymlink(d: Directory, n: string) { n in d && d[n].Symlink? }

  predicate IsHexDigest(s: string) { |s| == 64 && forall i :: 0 <= i < |s| ==> IsDigit(s[i]) || 'a' <= s[i] <= 'f' }

  function SumLine(sha256: string, artifact: string): string { sha256 + "  " + artifact + "\n" }

  datatype RecordError =
    | NotRegularFile | SymlinkProvenance | Unreadable | UnsupportedSchema | UnsupportedTarget | NameMismatch
    | VersionMismatch | HashMismatch | ChecksumMismatch | DevelopmentSource | SourceMismatch | MissingSnapshot
    | NotNotarized | MissingSignedInput

  predicate SignedInputOk(record: Record) {
    && record.signedInput.Some?
    && ArtifactName(record.version, "darwin", "arm64", "signed") == Some(record.signedInput.value.artifact)
    && IsHexDigest(record.signedInput.value.sha256) && IsHexDigest(record.signedInput.value.metadataSha256)
    && record.notarizedAt != ""
  }

  /** `read_record` as the collector and the verifier call it. */
  function ReadRecord(lib: Library, d: Directory, n: string, release: Release): Result<Record, RecordError> {
    var m, c := MetadataName(n), ChecksumName(n);
    if !IsRegular(d, n) then Err(NotRegularFile)
    else if IsSymlink(d, m) || IsSymlink(d, c) then Err(SymlinkProvenance)
    else if !IsRegular(d, m) || lib.parse(d[m].text).None? then Err(Unreadable)
    else
      var record := lib.parse(d[m].text).value;
      var name := ArtifactName(record.version, record.distro, record.arch, record.state);
      if record.schema != SCHEMA then Err(UnsupportedSchema)
      else if name.None? then Err(UnsupportedTarget)
      else if n != record.artifact || n != name.value then Err(NameMismatch)
      else if record.version != release.version then Err(VersionMismatch)
      else if record.sha256 != lib.digest(d[n].text) then Err(HashMismatch)
      else if !IsRegular(d, c) then Err(Unreadable)
      else if d[c].text != SumLine(record.sha256, n) then Err(ChecksumMismatch)
      else if !record.source.clean then Err(DevelopmentSource)
      else if Expected(record.source.commit, record.source.tree, record.source.archive,
                       record.source.clean) != release.expected
        then Err(SourceMismatch)
      else if !IsHexDigest(record.source.snapshot) then Err(MissingSnapshot)
      else if record.distro == "darwin" && record.state != "notarized" then Err(NotNotarized)
      else if record.state == "notarized" && !SignedInputOk(record) then Err(MissingSignedInput)
      else Ok(record)
  }

  /** The reading of one package; choosing and verifying go by nothing else about records. */
  type Reader = (Directory, string) -> Result<Record, RecordError>

  function Reading(lib: Library, release: Release): Reader {
    (d: Directory, n: string) => ReadRecord(lib, d, n, release)
  }

  // ---- Choosing ----

  datatype CollectError =
    | SourceNotFound | NoPackages | BadRecord(reason: RecordError) | UnexpectedLinux | Conflict | NothingCollected
    | SymlinkOutput

  /** An artifact with its two companions. */
  datatype Package = Package(artifact: string, metadata: string, checksum: string)

  function PackageIn(d: Directory, n: string): Package {
    Package(TextOf(d, n), TextOf(d, MetadataName(n)), TextOf(d, ChecksumName(n)))
  }

  type Chosen = map<string, Package>

  function PackagesOf(d: Directory): Chosen { map n | n in d && IsPackage(n) :: PackageIn(d, n) }

  /** The record is in order and, in a macOS-only collection, not for Linux. */
  predicate Acceptable(lib: Library, d: Directory, n: string, read: Reader, macOnly: bool) {
    read(d, n).Ok? && (macOnly ==> read(d, n).value.distro == "darwin")
  }

  /** Same artifact digest and same metadata bytes. */
  predicate SameBuild(lib: Library, a: Package, b: Package) {
    lib.digest(a.artifact) == lib.digest(b.artifact) && a.metadata == b.metadata
  }

  /** Nothing stands against package `n` of `d` joining `chosen`. */
  predicate Joins(lib: Library, d: Directory, chosen: Chosen, n: string, read: Reader, macOnly: bool) {
    Acceptable(lib, d, n, read, macOnly) && (n in chosen ==> SameBuild(lib, chosen[n], PackageIn(d, n)))
  }

  ghost predicate AllJoin(lib: Library, d: Directory, chosen: Chosen, done: seq<string>, read: Reader, macOnly: bool) {
    forall n :: n in done ==> Joins(lib, d, chosen, n, read, macOnly)
  }

  /** `now` is `chosen` with the packages `done` of `d`. */
  predicate Joined(d: Directory, chosen: Chosen, done: seq<string>, now: Chosen) {
    && (forall n :: n in done ==> n in now && now[n] == PackageIn(d, n))
    && (forall n :: n in chosen && n !in done ==> n in now && now[n] == chosen[n])
    && (forall n :: n in now ==> n in chosen || n in done)
  }

  lemma JoinsOne(d: Directory, chosen: Chosen, done: seq<string>, now: Chosen, n: string)
    requires Joined(d, chosen, done, now)
    ensures Joined(d, chosen, done + [n], now[n := PackageIn(d, n)])
  {
  }

  lemma JoinedAll(d: Directory, chosen: Chosen, done: seq<string>, now: Chosen)
    requires Joined(d, chosen, done, now) && forall n :: n in done <==> n in PackageFiles(d)
    ensures now == chosen + PackagesOf(d)
  {
    assert forall n :: n in PackagesOf(d) <==> n in done;
    assert now.Keys == (chosen + PackagesOf(d)).Keys;
  }

  /** The verdict on one package, and the choice with it. */
  method AddPackage(lib: Library, d: Directory, chosen: Chosen, n: string, read: Reader, macOnly: bool)
      returns (r: Result<Chosen, CollectError>)
    ensures r.Ok? <==> Joins(lib, d, chosen, n, read, macOnly)
    ensures r.Ok? ==> r.value == chosen[n := PackageIn(d, n)]
    ensures r.Err? ==> r.error in {UnexpectedLinux, Conflict} || r.error.BadRecord?
  {
    var record := read(d, n);
    if record.Err? { return Err(BadRecord(record.error)); }
    if macOnly && record.value.distro != "darwin" { return Err(UnexpectedLinux); }
    if n in chosen && !SameBuild(lib, chosen[n], PackageIn(d, n)) { return Err(Conflict); }
    return Ok(chosen[n := PackageIn(d, n)]);
  }

  /** The packages of one source, in order; a duplicate has to be the same build. */
  method AddSource(lib: Library, d: Directory, chosen: Chosen, read: Reader, macOnly: bool)
      returns (r: Result<Chosen, CollectError>)
    requires Sound(lib)
    ensures r.Ok? <==> forall n :: n in PackageFiles(d) ==> Joins(lib, d, chosen, n, read, macOnly)
    ensures r.Ok? ==> r.value == chosen + PackagesOf(d)
    ensures r.Err? ==> r.error in {UnexpectedLinux, Conflict} || r.error.BadRecord?
  {
    var names := lib.sorted(PackageFiles(d));
    var now := chosen;
    for i := 0 to |names|
      invariant AllJoin(lib, d, chosen, names[..i], read, macOnly)
      invariant Joined(d, chosen, names[..i], now)
    {
      var n := names[i];
      var added := AddPackage(lib, d, now, n, read, macOnly);
      JoinsAgain(lib, d, chosen, names[..i], now, n, read, macOnly);
      if added.Err? { return added; }
      JoinsOne(d, chosen, names[..i], now, n);
      assert names[..i + 1] == names[..i] + [n];
      now := added.value;
    }
    assert names[..|names|] == names;
    assert forall n :: n in names <==> n in PackageFiles(d);
    JoinedAll(d, chosen, names, now);
    return Ok(now);
  }

  /** A package met before in the same source stands in the way of nothing. */
  lemma JoinsAgain(lib: Library, d: Directory, chosen: Chosen, done: seq<string>, now: Chosen, n: string,
                   read: Reader, macOnly: bool)
    requires Joined(d, chosen, done, now)
    requires n in done ==> Joins(lib, d, chosen, n, read, macOnly)
    ensures Joins(lib, d, now, n, read, macOnly) <==> Joins(lib, d, chosen, n, read, macOnly)
  {
  }

  predicate SourceOk(lib: Library, source: Option<Directory>, read: Reader, macOnly: bool) {
    && source.Some? && PackageFiles(source.value) != {}
    && forall n :: n in PackageFiles(source.value) ==> Acceptable(lib, source.value, n, read, macOnly)
  }

  /** Where two sources both have a package, it is the same build. */
  predicate Agree(lib: Library, a: Directory, b: Directory) {
    forall n :: n in PackageFiles(a) && n in PackageFiles(b) ==> SameBuild(lib, PackageIn(a, n), PackageIn(b, n))
  }

  ghost predicate Compatible(lib: Library, sources: seq<Option<Directory>>, read: Reader, macOnly: bool) {
    && (forall i :: 0 <= i < |sources| ==> SourceOk(lib, sources[i], read, macOnly))
    && (forall i, j :: 0 <= i < |sources| && 0 <= j < |sources| ==> Agree(lib, sources[i].value, sources[j].value))
  }

  /** The package `n` is in some source. */
  ghost predicate Offered(sources: seq<Option<Directory>>, n: string) {
    exists i :: 0 <= i < |sources| && sources[i].Some? && n in PackageFiles(sources[i].value)
  }

  /** Exactly the packages of all sources, each as every source has it. */
  ghost predicate ChosenFrom(sources: seq<Option<Directory>>, chosen: Chosen) {
    && (forall i, n :: 0 <= i < |sources| && sources[i].Some? && n in PackageFiles(sources[i].value) ==>
          n in chosen && chosen[n] == PackageIn(sources[i].value, n))
    && (forall n :: n in chosen ==> Offered(sources, n))
  }

  /** Two readable packages of one build are the same, checksum file included. */
  ghost predicate Faithful(lib: Library, read: Reader) {
    forall a, b, n :: read(a, n).Ok? && read(b, n).Ok? && SameBuild(lib, PackageIn(a, n), PackageIn(b, n)) ==>
      PackageIn(a, n) == PackageIn(b, n)
  }

  lemma ReadRecordIsFaithful(lib: Library, release: Release)
    requires Sound(lib)
    ensures Faithful(lib, Reading(lib, release))
  {
    forall a, b, n | ReadRecord(lib, a, n, release).Ok? && ReadRecord(lib, b, n, release).Ok?
        && SameBuild(lib, PackageIn(a, n), PackageIn(b, n))
      ensures PackageIn(a, n) == PackageIn(b, n)
    {
      SameBuildSamePackage(lib, a, b, n, release);
    }
  }

  lemma SameBuildSamePackage(lib: Library, a: Directory, b: Directory, n: string, release: Release)
    requires Sound(lib) && ReadRecord(lib, a, n, release).Ok? && ReadRecord(lib, b, n, release).Ok?
    requires SameBuild(lib, PackageIn(a, n), PackageIn(b, n))
    ensures PackageIn(a, n) == PackageIn(b, n)
  {
  }

  /** Who agrees with the choice agrees with every source it was made from. */
  lemma AgreesWithEverySource(lib: Library, sources: seq<Option<Directory>>, chosen: Chosen, d: Directory, i: nat)
    requires ChosenFrom(sources, chosen) && i < |sources| && sources[i].Some?
    requires forall n :: n in PackageFiles(d) && n in chosen ==> SameBuild(lib, chosen[n], PackageIn(d, n))
    ensures Agree(lib, sources[i].value, d) && Agree(lib, d, sources[i].value)
  {
    forall n | n in PackageFiles(sources[i].value) && n in PackageFiles(d)
      ensures SameBuild(lib, PackageIn(sources[i].value, n), PackageIn(d, n))
    {
      assert n in chosen && chosen[n] == PackageIn(sources[i].value, n);
    }
  }

  lemma NextSourceCompatible(lib: Library, sources: seq<Option<Directory>>, chosen: Chosen, d: Directory,
                             read: Reader, macOnly: bool)
    requires Compatible(lib, sources, read, macOnly) && ChosenFrom(sources, chosen)
    requires SourceOk(lib, Some(d), read, macOnly)
    requires forall n :: n in PackageFiles(d) && n in chosen ==> SameBuild(lib, chosen[n], PackageIn(d, n))
    ensures Compatible(lib, sources + [Some(d)], read, macOnly)
  {
    var all, last := sources + [Some(d)], |sources|;
    forall i | 0 <= i < |all| ensures SourceOk(lib, all[i], read, macOnly) {
      if i < last { assert SourceOk(lib, sources[i], read, macOnly); }
    }
    forall i, j | 0 <= i < |all| && 0 <= j < |all| ensures Agree(lib, all[i].value, all[j].value) {
      if i < last { assert SourceOk(lib, sources[i], read, macOnly); }
      if j < last { assert SourceOk(lib, sources[j], read, macOnly); }
      if i < last && j < last { assert Agree(lib, sources[i].value, sources[j].value); }
      else if i < last { AgreesWithEverySource(lib, sources, chosen, d, i); }
      else if j < last { AgreesWithEverySource(lib, sources, chosen, d, j); }
    }
  }

  lemma OfferedStill(sources: seq<Option<Directory>>, d: Directory, n: string)
    requires Offered(sources, n) || n in PackageFiles(d)
    ensures Offered(sources + [Some(d)], n)
  {
    var all := sources + [Some(d)];
    if n in PackageFiles(d) {
      assert all[|sources|] == Some(d);
    } else {
      var i :| 0 <= i < |sources| && sources[i].Some? && n in PackageFiles(sources[i].value);
      assert all[i] == sources[i];
    }
  }

  /** A package chosen before is still the one of its source. */
  lemma KeepsPackage(lib: Library, sources: seq<Option<Directory>>, chosen: Chosen, d: Directory, i: nat, n: string,
                     read: Reader, macOnly: bool)
    requires Faithful(lib, read) && ChosenFrom(sources, chosen) && Compatible(lib, sources + [Some(d)], read, macOnly)
    requires i < |sources| && sources[i].Some? && n in PackageFiles(sources[i].value)
    ensures n in chosen && (chosen + PackagesOf(d))[n] == PackageIn(sources[i].value, n)
  {
    var all := sources + [Some(d)];
    assert all[i] == sources[i] && all[|sources|] == Some(d);
    assert n in chosen && chosen[n] == PackageIn(sources[i].value, n);
    if n in PackageFiles(d) { SharedPackage(lib, all, i, |sources|, n, read, macOnly); }
  }

  lemma NextSourceChosen(lib: Library, sources: seq<Option<Directory>>, chosen: Chosen, d: Directory, read: Reader,
                         macOnly: bool)
    requires Faithful(lib, read) && ChosenFrom(sources, chosen) && Compatible(lib, sources + [Some(d)], read, macOnly)
    ensures ChosenFrom(sources + [Some(d)], chosen + PackagesOf(d))
  {
    forall i, n | 0 <= i < |sources| && sources[i].Some? && n in PackageFiles(sources[i].value)
      ensures n in chosen && (chosen + PackagesOf(d))[n] == PackageIn(sources[i].value, n)
    {
      KeepsPackage(lib, sources, chosen, d, i, n, read, macOnly);
    }
    AppendedChoice(sources, chosen, d);
  }

  lemma AppendedChoice(sources: seq<Option<Directory>>, chosen: Chosen, d: Directory)
    requires forall n :: n in chosen ==> Offered(sources, n)
    requires forall i, n :: 0 <= i < |sources| && sources[i].Some? && n in PackageFiles(sources[i].value) ==>
               n in chosen && (chosen + PackagesOf(d))[n] == PackageIn(sources[i].value, n)
    ensures ChosenFrom(sources + [Some(d)], chosen + PackagesOf(d))
  {
    var all, now := sources + [Some(d)], chosen + PackagesOf(d);
    forall i, n | 0 <= i < |all| && all[i].Some? && n in PackageFiles(all[i].value)
      ensures n in now && now[n] == PackageIn(all[i].value, n)
    {
      if i < |sources| { assert all[i] == sources[i]; }
    }
    forall n | n in now ensures Offered(all, n) { OfferedStill(sources, d, n); }
  }

  /** Compatible sources have the same package under the same name. */
  lemma SharedPackage(lib: Library, sources: seq<Option<Directory>>, i: nat, j: nat, n: string, read: Reader,
                      macOnly: bool)
    requires Faithful(lib, read) && Compatible(lib, sources, read, macOnly) && i < |sources| && j < |sources|
    requires n in PackageFiles(sources[i].value) && n in PackageFiles(sources[j].value)
    ensures PackageIn(sources[i].value, n) == PackageIn(sources[j].value, n)
  {
    assert SourceOk(lib, sources[i], read, macOnly) && SourceOk(lib, sources[j], read, macOnly);
    assert Acceptable(lib, sources[i].value, n, read, macOnly) && Acceptable(lib, sources[j].value, n, read, macOnly);
    assert Agree(lib, sources[i].value, sources[j].value);
    assert read(sources[i].value, n).Ok? && read(sources[j].value, n).Ok?;
  }

  lemma AllAcceptable(lib: Library, d: Directory, chosen: Chosen, read: Reader, macOnly: bool)
    requires PackageFiles(d) != {} && forall n :: n in PackageFiles(d) ==> Joins(lib, d, chosen, n, read, macOnly)
    ensures SourceOk(lib, Some(d), read, macOnly)
  {
    forall n | n in PackageFiles(d) ensures Acceptable(lib, d, n, read, macOnly) {
      assert Joins(lib, d, chosen, n, read, macOnly);
    }
  }

  /** A source that clashes with what was chosen clashes with a source before it. */
  lemma ClashMeansIncompatible(lib: Library, sources: seq<Option<Directory>>, i: nat, chosen: Chosen, n: string,
                               read: Reader, macOnly: bool)
    requires i < |sources| && sources[i].Some? && ChosenFrom(sources[..i], chosen)
             && n in PackageFiles(sources[i].value)
    requires !Joins(lib, sources[i].value, chosen, n, read, macOnly)
    ensures !Compatible(lib, sources, read, macOnly)
  {
    if Acceptable(lib, sources[i].value, n, read, macOnly) {
      assert Offered(sources[..i], n);
      var k :| 0 <= k < i && sources[..i][k].Some? && n in PackageFiles(sources[..i][k].value);
      assert chosen[n] == PackageIn(sources[k].value, n);
      assert !Agree(lib, sources[k].value, sources[i].value);
    } else {
      assert !SourceOk(lib, sources[i], read, macOnly);
    }
  }

  lemma RefusalMeansIncompatible(lib: Library, sources: seq<Option<Directory>>, i: nat, chosen: Chosen, read: Reader,
                                 macOnly: bool)
    requires i < |sources| && sources[i].Some? && ChosenFrom(sources[..i], chosen)
    requires !forall n :: n in PackageFiles(sources[i].value) ==> Joins(lib, sources[i].value, chosen, n, read, macOnly)
    ensures !Compatible(lib, sources, read, macOnly)
  {
    var n :| n in PackageFiles(sources[i].value) && !Joins(lib, sources[i].value, chosen, n, read, macOnly);
    ClashMeansIncompatible(lib, sources, i, chosen, n, read, macOnly);
  }

  lemma NextSource(lib: Library, sources: seq<Option<Directory>>, chosen: Chosen, d: Directory, read: Reader,
                   macOnly: bool)
    requires Faithful(lib, read) && Compatible(lib, sources, read, macOnly) && ChosenFrom(sources, chosen)
    requires PackageFiles(d) != {} && forall n :: n in PackageFiles(d) ==> Joins(lib, d, chosen, n, read, macOnly)
    ensures Compatible(lib, sources + [Some(d)], read, macOnly)
    ensures ChosenFrom(sources + [Some(d)], chosen + PackagesOf(d)) && chosen + PackagesOf(d) != map[]
  {
    AllAcceptable(lib, d, chosen, read, macOnly);
    forall n | n in PackageFiles(d) && n in chosen ensures SameBuild(lib, chosen[n], PackageIn(d, n)) {
      assert Joins(lib, d, chosen, n, read, macOnly);
    }
    NextSourceCompatible(lib, sources, chosen, d, read, macOnly);
    NextSourceChosen(lib, sources, chosen, d, read, macOnly);
    var some :| some in PackageFiles(d);
    assert some in chosen + PackagesOf(d);
  }

  /** Succeeds exactly when every source is in order and no two of them disagree. */
  method Choose(lib: Library, sources: seq<Option<Directory>>, read: Reader, macOnly: bool)
        returns (r: Result<Chosen, CollectError>)
    requires Sound(lib) && Faithful(lib, read)
    ensures r.Ok? <==> sources != [] && Compatible(lib, sources, read, macOnly)
    ensures r.Ok? ==> ChosenFrom(sources, r.value) && r.value != map[]
    ensures r.Err? ==> r.error != SymlinkOutput
  {
    var chosen: Chosen := map[];
    for i := 0 to |sources|
      invariant Compatible(lib, sources[..i], read, macOnly) && ChosenFrom(sources[..i], chosen)
      invariant i > 0 ==> chosen != map[]
    {
      assert sources[..i + 1] == sources[..i] + [sources[i]];
      if sources[i].None? { return Err(SourceNotFound); }
      var d := sources[i].value;
      if PackageFiles(d) == {} { return Err(NoPackages); }
      var added := AddSource(lib, d, chosen, read, macOnly);
      if added.Err? {
        RefusalMeansIncompatible(lib, sources, i, chosen, read, macOnly);
        return added;
      }
      NextSource(lib, sources[..i], chosen, d, read, macOnly);
      chosen := added.value;
    }
    assert sources[..|sources|] == sources;
    if chosen == map[] { return Err(NothingCollected); }
    return Ok(chosen);
  }

  /** The order of the sources decides nothing. */
  lemma OrderDoesNotMatter(lib: Library, a: seq<Option<Directory>>, b: seq<Option<Directory>>, read: Reader,
                           macOnly: bool)
    requires multiset(a) == multiset(b)
    ensures Compatible(lib, a, read, macOnly) <==> Compatible(lib, b, read, macOnly)
    ensures forall c, d :: ChosenFrom(a, c) && ChosenFrom(b, d) && Compatible(lib, a, read, macOnly) ==> c == d
  {
    SameSources(a, b);
    SameSources(b, a);
    if Compatible(lib, a, read, macOnly) { CompatibleElsewhere(lib, a, b, read, macOnly); }
    if Compatible(lib, b, read, macOnly) { CompatibleElsewhere(lib, b, a, read, macOnly); }
    forall c, d | ChosenFrom(a, c) && ChosenFrom(b, d) && Compatible(lib, a, read, macOnly) ensures c == d {
      SameChoice(a, b, c, d);
      SameChoice(b, a, d, c);
    }
  }

  lemma SameSources<T>(a: seq<T>, b: seq<T>)
    requires multiset(a) == multiset(b)
    ensures forall i :: 0 <= i < |a| ==> a[i] in b
  {
    forall i | 0 <= i < |a| ensures a[i] in b {
      assert a[i] in multiset(b);
    }
  }

  lemma CompatibleElsewhere(lib: Library, a: seq<Option<Directory>>, b: seq<Option<Directory>>, read: Reader,
                            macOnly: bool)
    requires Compatible(lib, a, read, macOnly) && forall j :: 0 <= j < |b| ==> b[j] in a
    ensures Compatible(lib, b, read, macOnly)
  {
    forall i, j | 0 <= i < |b| && 0 <= j < |b|
      ensures SourceOk(lib, b[i], read, macOnly) && SourceOk(lib, b[j], read, macOnly)
              && Agree(lib, b[i].value, b[j].value)
    {
      var k :| 0 <= k < |a| && a[k] == b[i];
      var l :| 0 <= l < |a| && a[l] == b[j];
      assert SourceOk(lib, a[k], read, macOnly) && SourceOk(lib, a[l], read, macOnly);
      assert Agree(lib, a[k].value, a[l].value);
    }
  }

  lemma SameChoice(a: seq<Option<Directory>>, b: seq<Option<Directory>>, c: Chosen, d: Chosen)
    requires ChosenFrom(a, c) && ChosenFrom(b, d) && forall i :: 0 <= i < |a| ==> a[i] in b
    ensures forall n :: n in c ==> n in d && d[n] == c[n]
  {
    forall n | n in c ensures n in d && d[n] == c[n] {
      assert Offered(a, n);
      var i :| 0 <= i < |a| && a[i].Some? && n in PackageFiles(a[i].value);
      var j :| 0 <= j < |b| && b[j] == a[i];
    }
  }
}
