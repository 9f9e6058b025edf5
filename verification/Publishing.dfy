/**
 What the collector publishes and what the verifier makes of it (packaging/release/artifacts.py, `collect` and
 `verify` without platform checks).
 */
module Publishing {
  import opened Bytes
  import opened Collector

  // ---- Reading back ----

  function ReadAll(read: Reader, d: Directory, names: seq<string>): Result<seq<Record>, RecordError> {
    if names == [] then Ok([])
    else
      match read(d, names[0])
      case Err(e) => Err(e)
      case Ok(record) =>
        match ReadAll(read, d, names[1..])
        case Err(e) => Err(e)
        case Ok(rest) => Ok([record] + rest)
  }

  /** The artifacts with the digests of their metadata. */
  function Entries(lib: Library, d: Directory, records: seq<Record>): seq<(string, string)> {
    if records == [] then []
    else
      [(records[0].artifact, lib.digest(TextOf(d, MetadataName(records[0].artifact))))] + Entries(lib, d, records[1..])
  }

  function Subset(records: seq<Record>, mac: bool): seq<Record> {
    if records == [] then []
    else if (records[0].distro == "darwin") == mac then [records[0]] + Subset(records[1..], mac)
    else Subset(records[1..], mac)
  }

  function SumsText(records: seq<Record>): string {
    if records == [] then "" else SumLine(records[0].sha256, records[0].artifact) + SumsText(records[1..])
  }

  // ---- Assembling ----

  const KIND := "collection"

  function BaseNames(chosen: Chosen): set<string> {
    chosen.Keys + (set n | n in chosen :: MetadataName(n)) + (set n | n in chosen :: ChecksumName(n))
  }

  function BaseText(chosen: Chosen, f: string): string {
    if f in chosen then chosen[f].artifact
    else if EndsWith(f, ".metadata.json") && f[..|f| - 14] in chosen then chosen[f[..|f| - 14]].metadata
    else if EndsWith(f, ".sha256") && f[..|f| - 7] in chosen then chosen[f[..|f| - 7]].checksum
    else ""
  }

  /** Every chosen package with its companions. */
  function Base(chosen: Chosen): Directory { map f | f in BaseNames(chosen) :: Regular(BaseText(chosen, f)) }

  function MakeIndex(lib: Library, d: Directory, records: seq<Record>, release: Release, collector: string): Index {
    Index(SCHEMA, KIND, release.version, release.expected, collector, Entries(lib, d, records))
  }

  function WithIndex(lib: Library, base: Directory, records: seq<Record>, index: Index): Directory {
    var linux, mac := Subset(records, false), Subset(records, true);
    var d := base[INDEX := Regular(lib.writeIndex(index))];
    var e := if linux != [] then d[SUMS := Regular(SumsText(linux))] else d;
    if mac != [] then e[MAC_SUMS := Regular(SumsText(mac))][MAC_INDEX := Regular(lib.writeIndex(index))] else e
  }

  function Records(lib: Library, read: Reader, chosen: Chosen): seq<Record> {
    var records := ReadAll(read, Base(chosen), lib.sorted(chosen.Keys));
    if records.Ok? then records.value else []
  }

  /** Everything that is copied into the output directory. */
  function Final(lib: Library, read: Reader, chosen: Chosen, release: Release, collector: string): Directory {
    var records := Records(lib, read, chosen);
    WithIndex(lib, Base(chosen), records, MakeIndex(lib, Base(chosen), records, release, collector))
  }

  // ---- The output directory ----

  /** What is left after cleaning, if cleaning was asked for. */
  function Kept(was: Directory, clean: bool): Directory {
    map n | n in was && !(clean && Cleanable(n) && !was[n].SubDirectory?) :: was[n]
  }

  /** Copying onto a directory leaves the directory there. */
  function Merged(kept: Directory, final: Directory): Directory {
    map n | n in kept.Keys + final.Keys :: if n in final && !(n in kept && kept[n].SubDirectory?) then final[n]
        else kept[n]
  }

  predicate NoSymlinkAt(d: Directory, names: set<string>) { forall n :: n in names ==> !IsSymlink(d, n) }

  function AllSources(was: Directory, sources: seq<Option<Directory>>, clean: bool): seq<Option<Directory>> {
    if !clean && PackageFiles(was) != {} then [Some(was)] + sources else sources
  }

  // ---- Verifying ----

  datatype VerifyError =
    | InvalidVersion | MissingArtifacts | UnexpectedArtifacts | BadArtifact(reason: RecordError) | BadIndex
    | BadChecksums | BadMacIndex

  function LinuxNames(version: string): set<Option<string>> {
    {ArtifactName(version, "ubuntu24.04", "arm64", "linux"), ArtifactName(version, "ubuntu25.10", "arm64", "linux"),
     ArtifactName(version, "rhel9", "aarch64", "linux"), ArtifactName(version, "rhel10", "aarch64", "linux")}
  }

  function MacName(version: string): Option<string> { ArtifactName(version, "darwin", "arm64", "notarized") }

  function Required(version: string, requireMac: bool, macOnly: bool): set<Option<string>> {
    (if macOnly then {} else LinuxNames(version)) + (if requireMac || macOnly then {MacName(version)} else {})
  }

  /** All required names are there, and beyond them at most the macOS package. */
  predicate Covers(found: set<string>, required: set<Option<string>>, mac: Option<string>) {
    && (forall n :: n in required ==> n.Some? && n.value in found)
    && (forall n :: n in found ==> Some(n) in required + {mac})
  }

  predicate SumsOk(d: Directory, records: seq<Record>, mac: bool, name: string) {
    Subset(records, mac) == [] || (IsRegular(d, name) && d[name].text == SumsText(Subset(records, mac)))
  }

  function IndexIn(lib: Library, d: Directory, name: string): Option<Index> {
    if IsRegular(d, name) then lib.readIndex(d[name].text) else None
  }

  predicate IndexOk(lib: Library, d: Directory, records: seq<Record>, release: Release) {
    var index := IndexIn(lib, d, INDEX);
    index.Some? && index == Some(MakeIndex(lib, d, records, release, index.value.collector))
  }

  function VerifyAgainst(lib: Library, read: Reader, d: Directory, release: Release, required: set<Option<string>>,
                         mac: Option<string>): Outcome<VerifyError> {
    var found := PackageFiles(d);
    if exists n :: n in required && !(n.Some? && n.value in found) then Fail(MissingArtifacts)
    else if !Covers(found, required, mac) then Fail(UnexpectedArtifacts)
    else
      match ReadAll(read, d, lib.sorted(found))
      case Err(e) => Fail(BadArtifact(e))
      case Ok(records) =>
        if !IndexOk(lib, d, records, release) then Fail(BadIndex)
        else if !SumsOk(d, records, false, SUMS) || !SumsOk(d, records, true, MAC_SUMS) then Fail(BadChecksums)
        else if mac.Some? && mac.value in found && IndexIn(lib, d, MAC_INDEX) != IndexIn(lib, d, INDEX)
            then Fail(BadMacIndex)
        else Pass
  }

  function Verify(lib: Library, read: Reader, d: Directory, release: Release, requireMac: bool,
                  macOnly: bool): Outcome<VerifyError> {
    if !ValidVersion(release.version) then Fail(InvalidVersion)
    else VerifyAgainst(lib, read, d, release, Required(release.version, requireMac, macOnly), MacName(release.version))
  }

  // ---- Names do not collide ----

  predicate IndexName(f: string) { f in {INDEX, MAC_INDEX, SUMS, MAC_SUMS} }

  function Last(s: string): char
    requires s != ""
  {
    s[|s| - 1]
  }

  lemma LastCharacters(n: string)
    requires IsPackage(n)
    ensures n != "" && Last(n) in {'b', 'm', 'g'}
    ensures Last(MetadataName(n)) == 'n' && Last(ChecksumName(n)) == '6'
  {
    if EndsWith(n, ".deb") { assert n[|n| - 4..][3] == 'b'; }
    else if EndsWith(n, ".rpm") { assert n[|n| - 4..][3] == 'm'; }
    else { assert n[|n| - 4..][3] == 'g'; }
  }

  lemma SuffixLast(s: string, suffix: string)
    requires EndsWith(s, suffix) && suffix != ""
    ensures s != "" && Last(s) == Last(suffix)
  {
    assert s[|s| - |suffix|..][|suffix| - 1] == s[|s| - 1];
  }

  lemma IndexNamesApart(f: string)
    requires IndexName(f)
    ensures f != "" && Last(f) in {'t', 'S', '4'} && !IsPackage(f)
  {
    if IsPackage(f) { LastCharacters(f); }
  }

  lemma CompanionsAreNoPackages(n: string)
    requires IsPackage(n)
    ensures !IsPackage(MetadataName(n)) && !IsPackage(ChecksumName(n))
    ensures !IndexName(n) && !IndexName(MetadataName(n)) && !IndexName(ChecksumName(n))
  {
    LastCharacters(n);
    if IsPackage(MetadataName(n)) { LastCharacters(MetadataName(n)); }
    if IsPackage(ChecksumName(n)) { LastCharacters(ChecksumName(n)); }
    if IndexName(n) { IndexNamesApart(n); }
    if IndexName(MetadataName(n)) { IndexNamesApart(MetadataName(n)); }
    if IndexName(ChecksumName(n)) { IndexNamesApart(ChecksumName(n)); }
  }

  ghost predicate OnlyPackages(chosen: Chosen) { forall n :: n in chosen ==> IsPackage(n) }

  lemma BaseHolds(chosen: Chosen, n: string)
    requires OnlyPackages(chosen) && n in chosen
    ensures IsRegular(Base(chosen), n) && IsRegular(Base(chosen), MetadataName(n))
            && IsRegular(Base(chosen), ChecksumName(n))
    ensures PackageIn(Base(chosen), n) == chosen[n]
  {
    var m, c := MetadataName(n), ChecksumName(n);
    CompanionsAreNoPackages(n);
    LastCharacters(n);
    assert m !in chosen && c !in chosen;
    assert EndsWith(m, ".metadata.json") && m[..|m| - 14] == n;
    assert EndsWith(c, ".sha256") && c[..|c| - 7] == n;
    if EndsWith(c, ".metadata.json") { SuffixLast(c, ".metadata.json"); }
  }

  /** The only packages assembled are the chosen ones, and nothing assembled is in the way of the index files. */
  lemma BaseNamesApart(chosen: Chosen, f: string)
    requires OnlyPackages(chosen) && f in BaseNames(chosen)
    ensures !IndexName(f) && (IsPackage(f) ==> f in chosen)
  {
    if f in chosen {
      CompanionsAreNoPackages(f);
    } else {
      var n :| n in chosen && (f == MetadataName(n) || f == ChecksumName(n));
      CompanionsAreNoPackages(n);
    }
  }

  // ---- What publishing needs of the reading of a package ----

  ghost predicate Dependable(read: Reader, mac: Option<string>) {
    && (forall d, n :: read(d, n).Ok? ==> Consistent(d, n, read(d, n).value, mac))
    && (forall a, b, n :: read(a, n).Ok? && Complete(b, n) && PackageIn(a, n) == PackageIn(b, n) ==>
        read(b, n) == read(a, n))
  }

  predicate Complete(d: Directory, n: string) {
    IsRegular(d, n) && IsRegular(d, MetadataName(n)) && IsRegular(d, ChecksumName(n))
  }

  predicate Consistent(d: Directory, n: string, record: Record, mac: Option<string>) {
    && Complete(d, n) && record.artifact == n && mac.Some?
    && (record.distro == "darwin" <==> n == mac.value)
  }

  lemma LinuxNameEnds(version: string, distro: string, arch: string, state: string)
    requires LinuxTarget(distro, arch) && ArtifactName(version, distro, arch, state).Some?
    ensures var n := ArtifactName(version, distro, arch, state).value; n != "" && Last(n) in {'b', 'm'}
  {
  }

  lemma MacNameEnds(version: string)
    requires MacName(version).Some?
    ensures MacName(version).value != "" && Last(MacName(version).value) == 'g'
  {
  }

  lemma AcceptedIsConsistent(lib: Library, d: Directory, n: string, release: Release)
    requires ReadRecord(lib, d, n, release).Ok?
    ensures Consistent(d, n, ReadRecord(lib, d, n, release).value, MacName(release.version))
  {
    var record := ReadRecord(lib, d, n, release).value;
    if LinuxTarget(record.distro, record.arch) {
      LinuxNameEnds(record.version, record.distro, record.arch, record.state);
      MacNameEnds(release.version);
    }
  }

  /** Only the three texts matter. */
  lemma SameTextsSameRecord(lib: Library, a: Directory, b: Directory, n: string, release: Release)
    requires ReadRecord(lib, a, n, release).Ok? && Complete(b, n) && PackageIn(a, n) == PackageIn(b, n)
    ensures ReadRecord(lib, b, n, release) == ReadRecord(lib, a, n, release)
  {
  }

  lemma ReadRecordIsDependable(lib: Library, release: Release)
    ensures Dependable(Reading(lib, release), MacName(release.version))
  {
    forall d, n | ReadRecord(lib, d, n, release).Ok? { AcceptedIsConsistent(lib, d, n, release); }
    forall a, b, n | ReadRecord(lib, a, n, release).Ok? && Complete(b, n) && PackageIn(a, n) == PackageIn(b, n) {
      SameTextsSameRecord(lib, a, b, n, release);
    }
  }

  lemma {:induction false} ReadAllSame(read: Reader, a: Directory, b: Directory, names: seq<string>)
    requires forall n :: n in names ==> read(a, n) == read(b, n)
    ensures ReadAll(read, a, names) == ReadAll(read, b, names)
  {
    if names != [] { ReadAllSame(read, a, b, names[1..]); }
  }

  lemma {:induction false} ReadAllOk(read: Reader, d: Directory, names: seq<string>)
    ensures ReadAll(read, d, names).Ok? <==> forall n :: n in names ==> read(d, n).Ok?
    ensures ReadAll(read, d, names).Ok? ==>
              var records := ReadAll(read, d, names).value;
              |records| == |names| && forall i :: 0 <= i < |names| ==> read(d, names[i]) == Ok(records[i])
  {
    if names != [] { ReadAllOk(read, d, names[1..]); }
  }

  lemma {:induction false} EntriesSame(lib: Library, a: Directory, b: Directory, records: seq<Record>)
    requires forall i :: 0 <= i < |records| ==>
               TextOf(a, MetadataName(records[i].artifact))
               == TextOf(b, MetadataName(records[i].artifact))
    ensures Entries(lib, a, records) == Entries(lib, b, records)
  {
    if records != [] { EntriesSame(lib, a, b, records[1..]); }
  }

  lemma {:induction false} SubsetEmpty(records: seq<Record>, mac: bool)
    ensures Subset(records, mac) == [] <==> forall i :: 0 <= i < |records| ==> (records[i].distro == "darwin") != mac
  {
    if records != [] { SubsetEmpty(records[1..], mac); }
  }

  // ---- Collected, then verified ----

  /** All that choosing leaves behind. */
  ghost predicate Published(lib: Library, read: Reader, was: Directory, clean: bool, chosen: Chosen,
                            mac: Option<string>) {
    && Sound(lib) && Dependable(read, mac) && OnlyPackages(chosen) && chosen != map[]
    && (forall n :: n in chosen ==> read(Base(chosen), n).Ok?)
    && (clean || PackageFiles(was) <= chosen.Keys)
  }

  lemma ChosenArePackages(sources: seq<Option<Directory>>, chosen: Chosen)
    requires ChosenFrom(sources, chosen)
    ensures OnlyPackages(chosen)
  {
    forall n | n in chosen ensures IsPackage(n) {
      assert Offered(sources, n);
    }
  }

  lemma ChosenReads(lib: Library, read: Reader, sources: seq<Option<Directory>>, chosen: Chosen, n: string,
                    mac: Option<string>, macOnly: bool)
    requires Dependable(read, mac) && OnlyPackages(chosen) && n in chosen
    requires Compatible(lib, sources, read, macOnly) && ChosenFrom(sources, chosen)
    ensures read(Base(chosen), n).Ok?
  {
    assert Offered(sources, n);
    var i :| 0 <= i < |sources| && sources[i].Some? && n in PackageFiles(sources[i].value);
    var d := sources[i].value;
    assert read(d, n).Ok? by {
      assert SourceOk(lib, sources[i], read, macOnly);
      assert Acceptable(lib, d, n, read, macOnly);
    }
    BaseHolds(chosen, n);
    assert PackageIn(d, n) == PackageIn(Base(chosen), n) && Complete(Base(chosen), n);
  }

  lemma ChosenIsPublished(lib: Library, read: Reader, was: Directory, sources: seq<Option<Directory>>, clean: bool,
                          chosen: Chosen, mac: Option<string>, macOnly: bool)
    requires Sound(lib) && Dependable(read, mac) && chosen != map[]
    requires var all := AllSources(was, sources, clean); Compatible(lib, all, read, macOnly) && ChosenFrom(all, chosen)
    ensures Published(lib, read, was, clean, chosen, mac)
  {
    var all := AllSources(was, sources, clean);
    ChosenArePackages(all, chosen);
    forall n | n in chosen ensures read(Base(chosen), n).Ok? {
      ChosenReads(lib, read, all, chosen, n, mac, macOnly);
    }
    assert clean || PackageFiles(was) <= chosen.Keys by { OwnPackagesChosen(was, sources, clean, chosen); }
  }

  lemma OwnPackagesChosen(was: Directory, sources: seq<Option<Directory>>, clean: bool, chosen: Chosen)
    requires ChosenFrom(AllSources(was, sources, clean), chosen)
    ensures clean || PackageFiles(was) <= chosen.Keys
  {
    var all := AllSources(was, sources, clean);
    if !clean && PackageFiles(was) != {} {
      assert all[0] == Some(was);
    }
  }

  /** One record for each chosen package, telling truly whether it is the macOS one. */
  ghost predicate RecordsOf(chosen: Chosen, records: seq<Record>, mac: string) {
    && (forall i :: 0 <= i < |records| ==>
        records[i].artifact in chosen
        && (records[i].distro == "darwin" <==> records[i].artifact == mac))
    && (forall n :: n in chosen ==> exists i :: 0 <= i < |records| && records[i].artifact == n)
  }

  lemma RecordsConsistent(read: Reader, chosen: Chosen, names: seq<string>, records: seq<Record>, mac: Option<string>)
    requires Dependable(read, mac) && mac.Some? && |records| == |names| && forall n :: n in names <==> n in chosen
    requires forall i :: 0 <= i < |names| ==> read(Base(chosen), names[i]) == Ok(records[i])
    ensures RecordsOf(chosen, records, mac.value)
  {
    forall i | 0 <= i < |records|
      ensures records[i].artifact == names[i] && (records[i].distro == "darwin" <==> records[i].artifact == mac.value)
    {
      assert Consistent(Base(chosen), names[i], records[i], mac);
    }
    forall n | n in chosen ensures exists i :: 0 <= i < |records| && records[i].artifact == n {
      var i :| 0 <= i < |names| && names[i] == n;
      assert records[i].artifact == n;
    }
  }

  lemma RecordsRead(lib: Library, read: Reader, was: Directory, clean: bool, chosen: Chosen, mac: Option<string>)
    requires Published(lib, read, was, clean, chosen, mac)
    ensures ReadAll(read, Base(chosen), lib.sorted(chosen.Keys)) == Ok(Records(lib, read, chosen))
    ensures mac.Some? && RecordsOf(chosen, Records(lib, read, chosen), mac.value)
  {
    var names := lib.sorted(chosen.Keys);
    assert forall n :: n in names <==> n in chosen.Keys;
    ReadAllOk(read, Base(chosen), names);
    assert mac.Some? by {
      var some :| some in chosen;
      assert Consistent(Base(chosen), some, read(Base(chosen), some).value, mac);
    }
    RecordsConsistent(read, chosen, names, Records(lib, read, chosen), mac);
  }

  /** The macOS subset is empty exactly if the macOS package was not chosen. */
  lemma MacSubset(chosen: Chosen, records: seq<Record>, mac: string)
    requires RecordsOf(chosen, records, mac)
    ensures Subset(records, true) != [] <==> mac in chosen
  {
    SubsetEmpty(records, true);
  }

  /** No directory where a package belongs, and none where something is to be copied. */
  predicate Unobstructed(was: Directory, final: Directory) {
    forall n :: n in was && was[n].SubDirectory? ==> !IsPackage(n) && n !in final
  }

  lemma FinalHolds(lib: Library, read: Reader, chosen: Chosen, release: Release, collector: string, f: string)
    requires OnlyPackages(chosen) && f in BaseNames(chosen)
    ensures var final := Final(lib, read, chosen, release, collector); f in final && final[f] == Base(chosen)[f]
  {
    BaseNamesApart(chosen, f);
  }

  lemma FinalNames(lib: Library, read: Reader, chosen: Chosen, release: Release, collector: string, f: string)
    requires f in Final(lib, read, chosen, release, collector)
    ensures Final(lib, read, chosen, release, collector)[f].Regular?
    ensures f in BaseNames(chosen) || IndexName(f)
  {
  }

  /** Where the new directory has a file that was to be copied there, it is that file. */
  lemma CopiedOrObstructed(was: Directory, clean: bool, final: Directory, f: string)
    requires f in final && final[f].Regular?
    ensures var d := Merged(Kept(was, clean), final);
            && f in d && (IsRegular(d, f) ==> d[f] == final[f])
            && (IsRegular(d, f) <==> !(f in was && was[f].SubDirectory?))
  {
  }

  lemma PackagesAreChosen(lib: Library, read: Reader, was: Directory, clean: bool, chosen: Chosen,
                          mac: Option<string>, release: Release, collector: string)
    requires Published(lib, read, was, clean, chosen, mac)
    requires forall n :: n in was && was[n].SubDirectory? ==> !IsPackage(n)
    ensures PackageFiles(Merged(Kept(was, clean), Final(lib, read, chosen, release, collector))) == chosen.Keys
  {
    var final := Final(lib, read, chosen, release, collector);
    var d := Merged(Kept(was, clean), final);
    forall n | n in d && IsPackage(n) ensures n in chosen {
      if n in final {
        FinalNames(lib, read, chosen, release, collector, n);
        if IndexName(n) { IndexNamesApart(n); } else { BaseNamesApart(chosen, n); }
      } else {
        assert n in Kept(was, clean);
        assert n in PackageFiles(was);
      }
    }
    forall n | n in chosen ensures n in d {
      FinalHolds(lib, read, chosen, release, collector, n);
    }
  }

  /** A chosen package whose three files are all in place reads as it was chosen. */
  lemma ReadsBack(lib: Library, read: Reader, was: Directory, clean: bool, chosen: Chosen, mac: Option<string>,
                  release: Release, collector: string, n: string)
    requires Published(lib, read, was, clean, chosen, mac) && n in chosen
    requires Complete(Merged(Kept(was, clean), Final(lib, read, chosen, release, collector)), n)
    ensures var d := Merged(Kept(was, clean), Final(lib, read, chosen, release, collector));
            PackageIn(d, n) == PackageIn(Base(chosen), n) && read(d, n) == read(Base(chosen), n)
  {
    var final := Final(lib, read, chosen, release, collector);
    BaseHolds(chosen, n);
    forall f | f in {n, MetadataName(n), ChecksumName(n)} ensures f in final && final[f] == Base(chosen)[f] {
      FinalHolds(lib, read, chosen, release, collector, f);
    }
    CopiedOrObstructed(was, clean, final, n);
    CopiedOrObstructed(was, clean, final, MetadataName(n));
    CopiedOrObstructed(was, clean, final, ChecksumName(n));
  }

  lemma ReadsAllBack(lib: Library, read: Reader, was: Directory, clean: bool, chosen: Chosen, mac: Option<string>,
                     release: Release, collector: string)
    requires Published(lib, read, was, clean, chosen, mac)
    requires var d := Merged(Kept(was, clean), Final(lib, read, chosen, release, collector));
             forall n :: n in chosen ==> Complete(d, n)
    ensures var d, records := Merged(Kept(was, clean), Final(lib, read, chosen, release, collector)),
            Records(lib, read, chosen);
            && ReadAll(read, d, lib.sorted(chosen.Keys)) == Ok(records)
            && Entries(lib, d, records) == Entries(lib, Base(chosen), records)
  {
    var d, records := Merged(Kept(was, clean), Final(lib, read, chosen, release, collector)),
    Records(lib, read, chosen);
    RecordsRead(lib, read, was, clean, chosen, mac);
    forall n | n in chosen ensures read(d, n) == read(Base(chosen), n)
        && PackageIn(d, n) == PackageIn(Base(chosen), n) {
      ReadsBack(lib, read, was, clean, chosen, mac, release, collector, n);
    }
    var names := lib.sorted(chosen.Keys);
    forall n | n in names ensures read(d, n) == read(Base(chosen), n) { assert n in chosen.Keys; }
    ReadAllSame(read, d, Base(chosen), names);
    forall i | 0 <= i < |records|
      ensures TextOf(d, MetadataName(records[i].artifact)) == TextOf(Base(chosen), MetadataName(records[i].artifact))
    {
      var n := records[i].artifact;
      assert n in chosen && PackageIn(d, n) == PackageIn(Base(chosen), n);
    }
    EntriesSame(lib, d, Base(chosen), records);
  }

  predicate InPlace(d: Directory, final: Directory) { forall f :: f in final ==> f in d && d[f] == final[f] }

  lemma UnobstructedInPlace(was: Directory, clean: bool, final: Directory)
    requires Unobstructed(was, final) && forall f :: f in final ==> final[f].Regular?
    ensures InPlace(Merged(Kept(was, clean), final), final)
  {
    forall f | f in final ensures f in Merged(Kept(was, clean), final)
        && Merged(Kept(was, clean), final)[f] == final[f] {
      CopiedOrObstructed(was, clean, final, f);
    }
  }

  lemma IndexFilesWritten(lib: Library, base: Directory, records: seq<Record>, index: Index)
    ensures var final := WithIndex(lib, base, records, index);
            && INDEX in final && final[INDEX] == Regular(lib.writeIndex(index))
            && (Subset(records, false) != [] ==>
                SUMS in final && final[SUMS]
                == Regular(SumsText(Subset(records, false))))
            && (Subset(records, true) != [] ==>
                MAC_SUMS in final && final[MAC_SUMS]
                == Regular(SumsText(Subset(records, true))))
            && (Subset(records, true) != [] ==>
                MAC_INDEX in final && final[MAC_INDEX]
                == Regular(lib.writeIndex(index)))
  {
    assert |INDEX| == 18 && |MAC_INDEX| == 31 && |SUMS| == 10 && |MAC_SUMS| == 23;
  }

  /** Index and checksum files that are in place satisfy the verifier. */
  lemma IndexFilesInPlace(lib: Library, base: Directory, records: seq<Record>, index: Index, d: Directory)
    requires Sound(lib) && InPlace(d, WithIndex(lib, base, records, index))
    ensures IndexIn(lib, d, INDEX) == Some(index)
    ensures SumsOk(d, records, false, SUMS) && SumsOk(d, records, true, MAC_SUMS)
    ensures Subset(records, true) != [] ==> IndexIn(lib, d, MAC_INDEX) == Some(index)
  {
    IndexFilesWritten(lib, base, records, index);
  }

  lemma PassIf(lib: Library, read: Reader, d: Directory, chosen: Chosen, records: seq<Record>, index: Index,
               release: Release,
               required: set<Option<string>>, mac: string)
    requires Covers(chosen.Keys, required, Some(mac)) && PackageFiles(d) == chosen.Keys
    requires ReadAll(read, d, lib.sorted(chosen.Keys)) == Ok(records)
    requires IndexIn(lib, d, INDEX) == Some(index) && index == MakeIndex(lib, d, records, release, index.collector)
    requires SumsOk(d, records, false, SUMS) && SumsOk(d, records, true, MAC_SUMS)
    requires mac in chosen ==> IndexIn(lib, d, MAC_INDEX) == Some(index)
    ensures VerifyAgainst(lib, read, d, release, required, Some(mac)).Pass?
  {
  }

  lemma CompleteIfInPlace(lib: Library, read: Reader, chosen: Chosen, release: Release, collector: string,
                          d: Directory, n: string)
    requires OnlyPackages(chosen) && n in chosen && InPlace(d, Final(lib, read, chosen, release, collector))
    ensures Complete(d, n)
  {
    BaseHolds(chosen, n);
    FinalHolds(lib, read, chosen, release, collector, n);
    FinalHolds(lib, read, chosen, release, collector, MetadataName(n));
    FinalHolds(lib, read, chosen, release, collector, ChecksumName(n));
  }

  lemma VerifiesIfUnobstructed(lib: Library, read: Reader, was: Directory, clean: bool, chosen: Chosen,
                               release: Release,
                               collector: string, required: set<Option<string>>, mac: Option<string>)
    requires Published(lib, read, was, clean, chosen, mac)
    requires Unobstructed(was, Final(lib, read, chosen, release, collector)) && Covers(chosen.Keys, required, mac)
    ensures VerifyAgainst(lib, read, Merged(Kept(was, clean), Final(lib, read, chosen, release, collector)), release,
                          required, mac).Pass?
  {
    var final, records := Final(lib, read, chosen, release, collector), Records(lib, read, chosen);
    var d, index := Merged(Kept(was, clean), final), MakeIndex(lib, Base(chosen), records, release, collector);
    assert InPlace(d, final) by {
      forall f | f in final ensures final[f].Regular? { FinalNames(lib, read, chosen, release, collector, f); }
      UnobstructedInPlace(was, clean, final);
    }
    forall n | n in chosen ensures Complete(d, n) {
      CompleteIfInPlace(lib, read, chosen, release, collector, d, n);
    }
    PackagesAreChosen(lib, read, was, clean, chosen, mac, release, collector);
    ReadsAllBack(lib, read, was, clean, chosen, mac, release, collector);
    RecordsRead(lib, read, was, clean, chosen, mac);
    MacSubset(chosen, records, mac.value);
    IndexFilesInPlace(lib, Base(chosen), records, index, d);
    PassIf(lib, read, d, chosen, records, index, release, required, mac.value);
  }

  /** What a directory passes for. */
  lemma PassMeans(lib: Library, read: Reader, d: Directory, release: Release, required: set<Option<string>>,
                  mac: Option<string>)
    requires Sound(lib) && VerifyAgainst(lib, read, d, release, required, mac).Pass?
    ensures Covers(PackageFiles(d), required, mac)
    ensures forall n :: n in PackageFiles(d) ==> read(d, n).Ok?
    ensures var records := ReadAll(read, d, lib.sorted(PackageFiles(d)));
            && records.Ok? && IsRegular(d, INDEX)
            && SumsOk(d, records.value, false, SUMS) && SumsOk(d, records.value, true, MAC_SUMS)
            && (mac.Some? && mac.value in PackageFiles(d) ==> IsRegular(d, MAC_INDEX))
  {
    ReadAllOk(read, d, lib.sorted(PackageFiles(d)));
    forall n | n in PackageFiles(d) ensures read(d, n).Ok? {
      assert n in lib.sorted(PackageFiles(d));
    }
  }

  /** A directory in place of a package is found and refused. */
  lemma NoPackageDirectories(read: Reader, was: Directory, clean: bool, final: Directory, mac: Option<string>,
                             n: string)
    requires Dependable(read, mac) && n in was && was[n].SubDirectory?
    requires forall p :: p in PackageFiles(Merged(Kept(was, clean), final)) ==>
             read(Merged(Kept(was, clean), final), p).Ok?
    ensures !IsPackage(n)
  {
    var d := Merged(Kept(was, clean), final);
    assert d[n].SubDirectory? && !Complete(d, n);
    assert IsPackage(n) ==> n in PackageFiles(d);
  }

  /** Everything copied is a file wherever the verifier looked at all of it. */
  lemma AllLookedAt(lib: Library, read: Reader, chosen: Chosen, release: Release, collector: string, d: Directory,
                    f: string, mac: string)
    requires f in Final(lib, read, chosen, release, collector)
    requires Subset(Records(lib, read, chosen), true) != [] ==> mac in chosen
    requires forall n :: n in chosen ==> Complete(d, n)
    requires IsRegular(d, INDEX) && (mac in chosen ==> IsRegular(d, MAC_INDEX))
    requires SumsOk(d, Records(lib, read, chosen), false, SUMS) && SumsOk(d, Records(lib, read, chosen), true, MAC_SUMS)
    ensures IsRegular(d, f)
  {
    FinalNames(lib, read, chosen, release, collector, f);
    if f in BaseNames(chosen) {
      var n :| n in chosen && (f == n || f == MetadataName(n) || f == ChecksumName(n));
      assert Complete(d, n);
    } else {
      IndexNamesWritten(lib, read, chosen, release, collector, f);
    }
  }

  lemma IndexNamesWritten(lib: Library, read: Reader, chosen: Chosen, release: Release, collector: string, f: string)
    requires f in Final(lib, read, chosen, release, collector) && f !in BaseNames(chosen)
    ensures f == INDEX || (f == SUMS && Subset(Records(lib, read, chosen), false) != [])
            || (f in {MAC_SUMS, MAC_INDEX} && Subset(Records(lib, read, chosen), true) != [])
  {
  }

  lemma UnobstructedIfVerifies(lib: Library, read: Reader, was: Directory, clean: bool, chosen: Chosen,
                               release: Release,
                               collector: string, required: set<Option<string>>, mac: Option<string>)
    requires Published(lib, read, was, clean, chosen, mac)
    requires VerifyAgainst(lib, read, Merged(Kept(was, clean), Final(lib, read, chosen, release, collector)), release,
                           required, mac).Pass?
    ensures Unobstructed(was, Final(lib, read, chosen, release, collector)) && Covers(chosen.Keys, required, mac)
  {
    var final, records := Final(lib, read, chosen, release, collector), Records(lib, read, chosen);
    var d := Merged(Kept(was, clean), final);
    PassMeans(lib, read, d, release, required, mac);
    forall n | n in was && was[n].SubDirectory? ensures !IsPackage(n) {
      NoPackageDirectories(read, was, clean, final, mac, n);
    }
    PackagesAreChosen(lib, read, was, clean, chosen, mac, release, collector);
    forall n | n in chosen ensures Complete(d, n) { assert Consistent(d, n, read(d, n).value, mac); }
    ReadsAllBack(lib, read, was, clean, chosen, mac, release, collector);
    RecordsRead(lib, read, was, clean, chosen, mac);
    MacSubset(chosen, records, mac.value);
    forall f | f in final ensures !(f in was && was[f].SubDirectory?) {
      AllLookedAt(lib, read, chosen, release, collector, d, f, mac.value);
      FinalNames(lib, read, chosen, release, collector, f);
      CopiedOrObstructed(was, clean, final, f);
    }
  }

  /**
   What was collected passes verification exactly when the chosen names are the required ones, with at most the
   macOS package besides, and no directory sits where a package or a published file belongs.
   */
  lemma CollectedVerifies(lib: Library, was: Directory, sources: seq<Option<Directory>>, clean: bool, chosen: Chosen,
                          release: Release,
                          collector: string, collectMacOnly: bool, requireMac: bool, macOnly: bool)
    requires Sound(lib) && chosen != map[]
    requires var all := AllSources(was, sources, clean);
             Compatible(lib, all, Reading(lib, release), collectMacOnly) && ChosenFrom(all, chosen)
    ensures var read := Reading(lib, release);
            var final := Final(lib, read, chosen, release, collector);
            Verify(lib, read, Merged(Kept(was, clean), final), release, requireMac, macOnly).Pass? <==>
              Covers(chosen.Keys, Required(release.version, requireMac, macOnly), MacName(release.version))
                  && Unobstructed(was, final)
  {
    var read := Reading(lib, release);
    var required, mac := Required(release.version, requireMac, macOnly), MacName(release.version);
    ReadRecordIsDependable(lib, release);
    ChosenIsPublished(lib, read, was, sources, clean, chosen, mac, collectMacOnly);
    RecordsRead(lib, read, was, clean, chosen, mac);
    var final := Final(lib, read, chosen, release, collector);
    var d := Merged(Kept(was, clean), final);
    if VerifyAgainst(lib, read, d, release, required, mac).Pass? {
      UnobstructedIfVerifies(lib, read, was, clean, chosen, release, collector, required, mac);
    } else if Covers(chosen.Keys, required, mac) && Unobstructed(was, final) {
      VerifiesIfUnobstructed(lib, read, was, clean, chosen, release, collector, required, mac);
    }
  }

  // ---- What a verified index pins down ----

  /** Accepted files with the same metadata are the same in every byte. */
  lemma SameMetadataSamePackage(lib: Library, a: Directory, b: Directory, n: string, release: Release)
    requires Sound(lib) && ReadRecord(lib, a, n, release).Ok? && ReadRecord(lib, b, n, release).Ok?
    requires TextOf(a, MetadataName(n)) == TextOf(b, MetadataName(n))
    ensures PackageIn(a, n) == PackageIn(b, n)
  {
  }

  lemma {:induction false} EntriesAt(lib: Library, d: Directory, records: seq<Record>)
    ensures |Entries(lib, d, records)| == |records|
    ensures forall i :: 0 <= i < |records| ==>
              Entries(lib, d, records)[i]
              == (records[i].artifact, lib.digest(TextOf(d, MetadataName(records[i].artifact))))
  {
    if records != [] { EntriesAt(lib, d, records[1..]); }
  }

  /** The entries of a directory that passes: its packages in order, each with the digest of its metadata. */
  lemma PassingEntries(lib: Library, read: Reader, d: Directory, release: Release, required: set<Option<string>>,
                       mac: Option<string>,
                       names: seq<string>, index: Index)
    requires Sound(lib) && Dependable(read, mac) && VerifyAgainst(lib, read, d, release, required, mac).Pass?
    requires names == lib.sorted(PackageFiles(d)) && IndexIn(lib, d, INDEX) == Some(index)
    ensures |index.artifacts| == |names|
    ensures forall i :: 0 <= i < |names| ==>
              index.artifacts[i] == (names[i], lib.digest(TextOf(d, MetadataName(names[i]))))
  {
    ReadAllOk(read, d, names);
    var records := ReadAll(read, d, names).value;
    EntriesAt(lib, d, records);
    forall i | 0 <= i < |names|
      ensures index.artifacts[i] == (names[i], lib.digest(TextOf(d, MetadataName(names[i]))))
    {
      assert Consistent(d, names[i], records[i], mac);
    }
  }

  lemma SameEntriesSameNames(lib: Library, a: Directory, b: Directory, namesA: seq<string>, namesB: seq<string>,
                             entries: seq<(string, string)>)
    requires Sound(lib) && |namesA| == |entries| == |namesB|
    requires forall i :: 0 <= i < |entries| ==>
               entries[i] == (namesA[i], lib.digest(TextOf(a, MetadataName(namesA[i]))))
    requires forall i :: 0 <= i < |entries| ==>
               entries[i] == (namesB[i], lib.digest(TextOf(b, MetadataName(namesB[i]))))
    ensures namesA == namesB
    ensures forall n :: n in namesA ==> TextOf(a, MetadataName(n)) == TextOf(b, MetadataName(n))
  {
    forall i | 0 <= i < |entries|
      ensures namesA[i] == namesB[i] && TextOf(a, MetadataName(namesA[i])) == TextOf(b, MetadataName(namesA[i]))
    {
      assert entries[i] == (namesA[i], lib.digest(TextOf(a, MetadataName(namesA[i]))));
    }
  }

  lemma IndexDeterminesMetadata(lib: Library, read: Reader, a: Directory, b: Directory, release: Release,
                                required: set<Option<string>>, mac: Option<string>)
    requires Sound(lib) && Dependable(read, mac) && IndexIn(lib, a, INDEX) == IndexIn(lib, b, INDEX)
    requires VerifyAgainst(lib, read, a, release, required, mac).Pass?
             && VerifyAgainst(lib, read, b, release, required, mac).Pass?
    ensures PackageFiles(a) == PackageFiles(b)
    ensures forall n :: n in PackageFiles(a) ==>
              read(a, n).Ok? && read(b, n).Ok? && TextOf(a, MetadataName(n)) == TextOf(b, MetadataName(n))
  {
    PassMeans(lib, read, a, release, required, mac);
    PassMeans(lib, read, b, release, required, mac);
    var namesA, namesB := lib.sorted(PackageFiles(a)), lib.sorted(PackageFiles(b));
    var index := IndexIn(lib, a, INDEX).value;
    PassingEntries(lib, read, a, release, required, mac, namesA, index);
    PassingEntries(lib, read, b, release, required, mac, namesB, index);
    SameEntriesSameNames(lib, a, b, namesA, namesB, index.artifacts);
    assert forall n :: n in PackageFiles(a) <==> n in namesA;
    assert forall n :: n in PackageFiles(b) <==> n in namesA;
  }

  /**
   The index names the whole release: two directories that pass verification with the same index hold the same
   packages, byte for byte, metadata and checksum files included. So nothing verified can be exchanged unnoticed.
   */
  lemma IndexDeterminesRelease(lib: Library, a: Directory, b: Directory, release: Release, requireMac: bool,
                               macOnly: bool)
    requires Sound(lib) && IndexIn(lib, a, INDEX) == IndexIn(lib, b, INDEX)
    requires Verify(lib, Reading(lib, release), a, release, requireMac, macOnly).Pass?
    requires Verify(lib, Reading(lib, release), b, release, requireMac, macOnly).Pass?
    ensures PackageFiles(a) == PackageFiles(b) && forall n :: n in PackageFiles(a) ==>
            PackageIn(a, n) == PackageIn(b, n)
  {
    ReadRecordIsDependable(lib, release);
    IndexDeterminesMetadata(lib, Reading(lib, release), a, b, release, Required(release.version, requireMac, macOnly),
                            MacName(release.version));
    forall n | n in PackageFiles(a) ensures PackageIn(a, n) == PackageIn(b, n) {
      assert Reading(lib, release)(a, n).Ok? && Reading(lib, release)(b, n).Ok?;
      SameMetadataSamePackage(lib, a, b, n, release);
    }
  }

  /** What acceptance of one package amounts to. */
  lemma AcceptedIsReleased(lib: Library, d: Directory, n: string, release: Release)
    requires ReadRecord(lib, d, n, release).Ok?
    ensures var record := ReadRecord(lib, d, n, release).value;
            && lib.parse(TextOf(d, MetadataName(n))) == Some(record)
            && record.schema == SCHEMA && record.artifact == n && record.version == release.version
            && IsHexDigest(record.source.snapshot)
            && record.sha256 == lib.digest(TextOf(d, n)) && TextOf(d, ChecksumName(n))
                == SumLine(lib.digest(TextOf(d, n)), n)
            && Expected(record.source.commit, record.source.tree, record.source.archive, true) == release.expected
            && (Some(n) == MacName(release.version) ==>
                  record.state == "notarized" && record.signedInput.Some? && record.notarizedAt != ""
                  && IsHexDigest(record.signedInput.value.sha256)
                      && IsHexDigest(record.signedInput.value.metadataSha256)
                  && record.signedInput.value.artifact == "macos-auth-" + release.version + "-darwin-arm64-signed.pkg")
  {
    AcceptedIsConsistent(lib, d, n, release);
  }

  /**
   The failing side: with a directory named like the index in the output, collecting goes through whatever is
   collected, and the verifier refuses the result whatever it requires.
   */
  lemma ObstructedIsRefused(lib: Library, sources: seq<Option<Directory>>, clean: bool, chosen: Chosen,
                            release: Release,
                            collector: string, collectMacOnly: bool, requireMac: bool, macOnly: bool)
    requires Sound(lib) && chosen != map[]
    requires Compatible(lib, sources, Reading(lib, release), collectMacOnly) && ChosenFrom(sources, chosen)
    ensures var was, final := map[INDEX := SubDirectory], Final(lib, Reading(lib, release), chosen, release, collector);
            && AllSources(was, sources, clean) == sources
            && NoSymlinkAt(Kept(was, clean), final.Keys)
            && !Unobstructed(was, final)
            && Verify(lib, Reading(lib, release), Merged(Kept(was, clean), final), release, requireMac, macOnly).Fail?
  {
    var was, read := map[INDEX := SubDirectory], Reading(lib, release);
    IndexNamesApart(INDEX);
    assert PackageFiles(was) == {};
    assert INDEX in Final(lib, read, chosen, release, collector) by {
      IndexFilesWritten(lib, Base(chosen), Records(lib, read, chosen),
                        MakeIndex(lib, Base(chosen), Records(lib, read, chosen), release, collector));
    }
    CollectedVerifies(lib, was, sources, clean, chosen, release, collector, collectMacOnly, requireMac, macOnly);
  }

  /** An accepted package has one of the five known names: the four Linux ones and the macOS one. */
  lemma CollectedNamesAreKnown(lib: Library, d: Directory, n: string, release: Release)
    requires ReadRecord(lib, d, n, release).Ok?
    ensures Some(n) in LinuxNames(release.version) + {MacName(release.version)}
  {
  }

  // ---- Collecting ----

  function Restricted(chosen: Chosen, done: seq<string>): Chosen { map n | n in chosen && n in done :: chosen[n] }

  function WithPackage(d: Directory, n: string, p: Package): Directory {
    d[n := Regular(p.artifact)][MetadataName(n) := Regular(p.metadata)][ChecksumName(n) := Regular(p.checksum)]
  }

  predicate Owns(n: string, f: string) { f == n || f == MetadataName(n) || f == ChecksumName(n) }

  /** A file of package `q` depends on that package alone. */
  lemma OwnFile(a: Chosen, b: Chosen, q: string, f: string)
    requires OnlyPackages(a) && OnlyPackages(b) && q in a && q in b && a[q] == b[q] && Owns(q, f)
    ensures f in Base(a) && f in Base(b) && Base(a)[f] == Base(b)[f]
  {
    BaseHolds(a, q);
    BaseHolds(b, q);
  }

  lemma BaseNamesGrow(chosen: Chosen, n: string, p: Package)
    ensures BaseNames(chosen[n := p]) == BaseNames(chosen) + {n, MetadataName(n), ChecksumName(n)}
  {
  }

  lemma WithPackageAt(d: Directory, n: string, p: Package, f: string)
    requires IsPackage(n)
    ensures Owns(n, f) ==>
              f in WithPackage(d, n, p)
              && WithPackage(d, n, p)[f] == Regular(if f == n then p.artifact else if f == MetadataName(n)
                                                    then p.metadata else p.checksum)
    ensures !Owns(n, f) && f in d ==> f in WithPackage(d, n, p) && WithPackage(d, n, p)[f] == d[f]
  {
    LastCharacters(n);
  }

  lemma BaseGrowsAt(chosen: Chosen, n: string, p: Package, f: string)
    requires OnlyPackages(chosen) && IsPackage(n) && f in BaseNames(chosen[n := p])
    ensures f in WithPackage(Base(chosen), n, p) && Base(chosen[n := p])[f] == WithPackage(Base(chosen), n, p)[f]
  {
    WithPackageAt(Base(chosen), n, p, f);
    if Owns(n, f) {
      BaseHolds(chosen[n := p], n);
    } else {
      var q :| q in chosen && Owns(q, f);
      OwnFile(chosen, chosen[n := p], q, f);
    }
  }

  lemma BaseGrows(chosen: Chosen, n: string, p: Package)
    requires OnlyPackages(chosen) && IsPackage(n)
    ensures Base(chosen[n := p]) == WithPackage(Base(chosen), n, p)
  {
    BaseNamesGrow(chosen, n, p);
    forall f | f in BaseNames(chosen[n := p])
      ensures f in WithPackage(Base(chosen), n, p) && Base(chosen[n := p])[f] == WithPackage(Base(chosen), n, p)[f]
    {
      BaseGrowsAt(chosen, n, p, f);
    }
    assert Base(chosen[n := p]).Keys == WithPackage(Base(chosen), n, p).Keys;
  }

  lemma RestrictedGrows(chosen: Chosen, names: seq<string>, i: nat)
    requires i < |names| && names[i] in chosen
    ensures Restricted(chosen, names[..i + 1]) == Restricted(chosen, names[..i])[names[i] := chosen[names[i]]]
  {
    assert names[..i + 1] == names[..i] + [names[i]];
  }

  lemma RestrictedToAll(chosen: Chosen, names: seq<string>)
    requires forall n :: n in chosen ==> n in names
    ensures Restricted(chosen, names[..|names|]) == chosen
  {
    assert names[..|names|] == names;
  }

  /** Copies every chosen package with its companions, then writes the index and checksum files. */
  method Assemble(lib: Library, read: Reader, chosen: Chosen, release: Release, collector: string)
        returns (final: Directory)
    requires Sound(lib) && OnlyPackages(chosen)
    ensures final == Final(lib, read, chosen, release, collector)
  {
    var names := lib.sorted(chosen.Keys);
    var base: Directory := map[];
    for i := 0 to |names|
      invariant base == Base(Restricted(chosen, names[..i]))
    {
      var n := names[i];
      assert n in chosen.Keys;
      RestrictedGrows(chosen, names, i);
      BaseGrows(Restricted(chosen, names[..i]), n, chosen[n]);
      base := WithPackage(base, n, chosen[n]);
    }
    assert forall n :: n in chosen ==> n in chosen.Keys && n in names;
    RestrictedToAll(chosen, names);
    var records := Records(lib, read, chosen);
    return WithIndex(lib, base, records, MakeIndex(lib, base, records, release, collector));
  }

  class OutputDirectory {
    var entries: Directory

    constructor (entries: Directory)
      ensures this.entries == entries
    {
      this.entries := entries;
    }

    /** Removes the files and symbolic links it knows; directories stay. */
    method Clean(lib: Library)
      requires Sound(lib)
      modifies this
      ensures entries == Kept(old(entries), true)
    {
      var listed := lib.sorted(entries.Keys);
      ghost var was := entries;
      for i := 0 to |listed|
        invariant entries == map n | n in was && !(n in listed[..i] && Cleanable(n) && !was[n].SubDirectory?) :: was[n]
      {
        var n := listed[i];
        assert listed[..i + 1] == listed[..i] + [n];
        if Cleanable(n) && n in entries && !entries[n].SubDirectory? {
          entries := entries - {n};
        }
      }
      assert listed[..|listed|] == listed;
      assert forall n :: n in was ==> n in was.Keys && n in listed;
    }

    /** Refuses to write through a symbolic link; then part of the files may have been copied already. */
    method CopyIn(lib: Library, final: Directory) returns (copied: bool)
      requires Sound(lib) && AllRegular(final)
      modifies this
      ensures copied <==> NoSymlinkAt(old(entries), final.Keys)
      ensures copied ==> entries == Merged(old(entries), final)
      ensures PartlyCopied(old(entries), final, entries)
    {
      var listed := lib.sorted(final.Keys);
      ghost var was := entries;
      for i := 0 to |listed|
        invariant forall k :: 0 <= k < i ==> !IsSymlink(was, listed[k])
        invariant Copied(was, final, listed[..i], entries)
      {
        var n := listed[i];
        assert n in final.Keys;
        assert listed[..i + 1] == listed[..i] + [n];
        if IsSymlink(entries, n) {
          assert IsSymlink(was, n);
          CopiedIsPartly(was, final, listed[..i], entries);
          return false;
        }
        CopiesOne(was, final, listed[..i], entries, n);
        if !(n in entries && entries[n].SubDirectory?) { entries := entries[n := final[n]]; }
      }
      assert listed[..|listed|] == listed;
      CopiedAll(was, final, listed, entries);
      CopiedIsPartly(was, final, listed, entries);
      return true;
    }

    /**
     Nothing is touched unless every source is in order and agrees with the others; then `picked` is the choice,
     whatever order the sources came in, and it is published exactly if none of its files would go through a
     symbolic link. If one would, no other name than those to be published is different.
     */
    method Collect(lib: Library, sources: seq<Option<Directory>>, clean: bool, release: Release, collector: string,
                   macOnly: bool)
        returns (r: Result<Chosen, CollectError>, ghost picked: Chosen)
      requires Sound(lib)
      modifies this
      ensures var all, read := AllSources(old(entries), sources, clean), Reading(lib, release);
              var kept, final := Kept(old(entries), clean), Final(lib, read, picked, release, collector);
              if all == [] || !Compatible(lib, all, read, macOnly) then
                r.Err? && r.error != SymlinkOutput && entries == old(entries)
              else
                && ChosenFrom(all, picked) && picked != map[]
                && r == (if NoSymlinkAt(kept, final.Keys) then Ok(picked) else Err(SymlinkOutput))
                && (if r.Ok? then entries == Merged(kept, final) else PartlyCopied(kept, final, entries))
    {
      ghost var was := entries;
      var all, read := AllSources(entries, sources, clean), Reading(lib, release);
      ReadRecordIsFaithful(lib, release);
      var chosen := Choose(lib, all, read, macOnly);
      if chosen.Err? { return chosen, map[]; }
      picked := chosen.value;
      ChosenArePackages(all, chosen.value);
      var final := Assemble(lib, read, chosen.value, release, collector);
      forall f | f in final ensures final[f].Regular? { FinalNames(lib, read, chosen.value, release, collector, f); }
      if clean { Clean(lib); }
      assert entries == Kept(was, clean);
      var copied := CopyIn(lib, final);
      r := if copied then chosen else Err(SymlinkOutput);
    }
  }

  predicate AllRegular(d: Directory) { forall n :: n in d ==> d[n].Regular? }

  /** Nothing but names of `final` differs, and what differs there is what was to be copied. */
  predicate PartlyCopied(was: Directory, final: Directory, now: Directory) {
    && (forall n :: n in was ==> n in now)
    && (forall n :: n in now ==> (n in was && now[n] == was[n]) || (n in final && now[n] == final[n]))
  }

  lemma CopiedIsPartly(was: Directory, final: Directory, done: seq<string>, now: Directory)
    requires Copied(was, final, done, now)
    ensures PartlyCopied(was, final, now)
  {
  }

  /** `now` is `was` after copying `done`. */
  predicate Copied(was: Directory, final: Directory, done: seq<string>, now: Directory) {
    && (forall n :: n in was ==> n in now)
    && (forall n :: n in now ==> n in was || (n in done && n in final))
    && (forall n :: n in now && n in done && n in final && !(n in was && was[n].SubDirectory?) ==> now[n] == final[n])
    && (forall n :: n in done && n in final ==> n in now)
    && (forall n :: n in was && (n !in done || n !in final || was[n].SubDirectory?) ==> now[n] == was[n])
  }

  lemma CopiesOne(was: Directory, final: Directory, done: seq<string>, now: Directory, n: string)
    requires Copied(was, final, done, now) && n in final && AllRegular(final) && !IsSymlink(now, n)
    ensures Copied(was, final, done + [n], if n in now && now[n].SubDirectory? then now else now[n := final[n]])
    ensures !IsSymlink(was, n) || n in done
  {
  }

  lemma CopiedAll(was: Directory, final: Directory, done: seq<string>, now: Directory)
    requires Copied(was, final, done, now) && forall n :: n in final ==> n in done
    ensures now == Merged(was, final)
  {
    assert now.Keys == Merged(was, final).Keys;
  }
}
