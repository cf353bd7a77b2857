/** The rules for uploaded source ZIPs: which archives are accepted, and what
    extracting one may write, and where. */
module SourceArchive {
  import opened Wrappers
  import opened Sorting
  import opened Text

  const MAX_UNCOMPRESSED: nat := 268435456          // 256 MiB
  const MAX_FILES: nat := 10000
  const MAX_RATIO: nat := 200
  const RATIO_FREE: nat := 1048576                  // 1 MiB
  const U64: nat := 0x1_0000_0000_0000_0000

  type uint64 = x: int | 0 <= x < U64

  // ---------------------------------------------------------------- paths

  /** One step of walking a path: stay, go up (the root has no parent), go down. */
  function Apply(dir: seq<string>, c: string): seq<string> {
    if c == "" || c == "." then dir
    else if c == ".." then (if dir == [] then [] else dir[..|dir| - 1])
    else dir + [c]
  }

  /** The directory reached from `dir` by these path components, ignoring links. */
  function Walk(dir: seq<string>, components: seq<string>): seq<string> {
    if components == [] then dir
    else Apply(Walk(dir, components[..|components| - 1]), components[|components| - 1])
  }

  /** Not a component that stays where it is. */
  predicate Moves(c: string) { c != "" && c != "." }

  /** A component that names something below. */
  predicate Ordinary(c: string) { Moves(c) && c != ".." }

  /** What `path.Clean` makes of one more component of a relative path: a parent
      reference takes back the component before it, unless that is one itself. */
  function Push(r: seq<string>, c: string): seq<string> {
    if !Moves(c) then r
    else if c == ".." && r != [] && r[|r| - 1] != ".." then r[..|r| - 1]
    else r + [c]
  }

  /** The components `path.Clean` keeps: parent references only at the front. */
  function CleanComponents(components: seq<string>): (r: seq<string>)
    ensures forall i | 0 <= i < |r| :: Moves(r[i]) && r[i] in components
    ensures forall i, j | 0 <= i <= j < |r| && r[j] == ".." :: r[i] == ".."
  {
    if components == [] then [] else
      var init, c := components[..|components| - 1], components[|components| - 1];
      assert forall x | x in init :: x in components;
      Push(CleanComponents(init), c)
  }

  function Clean(name: string): string {
    var r := CleanComponents(Split(name, '/'));
    if r == [] then "." else Join(r, '/')
  }

  function SafePath(name: string): Option<string> {
    if name == "" || '\0' in name || '\\' in name || name[0] == '/' then None else
      var clean := Clean(name);
      if clean == "." || clean == ".." || "../" <= clean then None else Some(clean)
  }

  lemma {:induction false} PushLeadsThere(dir: seq<string>, r: seq<string>, c: string)
    requires forall i | 0 <= i < |r| :: Moves(r[i])
    ensures Walk(dir, Push(r, c)) == Apply(Walk(dir, r), c)
  {
    if c == ".." && r != [] && r[|r| - 1] != ".." {
      assert Walk(dir, r) == Walk(dir, r[..|r| - 1]) + [r[|r| - 1]];
    } else if Moves(c) {
      assert (r + [c])[..|r|] == r;
    }
  }

  /** Cleaning does not change where a path leads. */
  lemma {:induction false} CleanLeadsThere(dir: seq<string>, components: seq<string>)
    ensures Walk(dir, CleanComponents(components)) == Walk(dir, components)
  {
    if components != [] {
      var init, c := components[..|components| - 1], components[|components| - 1];
      CleanLeadsThere(dir, init);
      PushLeadsThere(dir, CleanComponents(init), c);
    }
  }

  lemma {:induction false} WalkDown(dir: seq<string>, r: seq<string>)
    requires forall i | 0 <= i < |r| :: Ordinary(r[i])
    ensures Walk(dir, r) == dir + r
  {
    if r != [] {
      WalkDown(dir, r[..|r| - 1]);
      assert dir + r[..|r| - 1] + [r[|r| - 1]] == dir + r;
    }
  }

  lemma JoinStart(r: seq<string>)
    requires r != []
    ensures r[0] <= Join(r, '/')
    ensures |r| > 1 ==> r[0] + "/" <= Join(r, '/')
  {
  }

  /** An accepted name cleans to ordinary components only, at least one. */
  lemma SafeComponents(name: string)
    requires SafePath(name).Some?
    ensures var r := CleanComponents(Split(name, '/'));
            && r != [] && (forall i | 0 <= i < |r| :: Ordinary(r[i]) && '/' !in r[i])
            && SafePath(name).value == Join(r, '/') && Split(SafePath(name).value, '/') == r
  {
    var r := CleanComponents(Split(name, '/'));
    assert r != [];
    JoinStart(r);
    assert |r| == 1 ==> Join(r, '/') == r[0];
    assert r[0] != "..";
    forall i | 0 <= i < |r| ensures Ordinary(r[i]) && '/' !in r[i] {
      assert r[i] in Split(name, '/');
    }
    SplitJoin(r, '/');
  }

  /** Strictly inside: below the destination, however the destination is named. */
  ghost predicate StrictlyInside(dir: seq<string>, place: seq<string>) {
    |dir| < |place| && place[..|dir|] == dir
  }

  /** An accepted path leads strictly inside any destination, and to the same place
      whether taken as written in the archive or as cleaned. */
  lemma SafePathStaysInside(name: string, dir: seq<string>)
    requires SafePath(name).Some?
    ensures Walk(dir, Split(name, '/')) == Walk(dir, Split(SafePath(name).value, '/'))
    ensures StrictlyInside(dir, Walk(dir, Split(SafePath(name).value, '/')))
  {
    var r := CleanComponents(Split(name, '/'));
    SafeComponents(name);
    CleanLeadsThere(dir, Split(name, '/'));
    WalkDown(dir, r);
  }

  /** Different accepted paths lead to different places. */
  lemma SafePathsDiffer(name: string, name': string, dir: seq<string>)
    requires SafePath(name).Some? && SafePath(name').Some? && SafePath(name) != SafePath(name')
    ensures Walk(dir, Split(name, '/')) != Walk(dir, Split(name', '/'))
  {
    var r, r' := CleanComponents(Split(name, '/')), CleanComponents(Split(name', '/'));
    SafeComponents(name);
    SafeComponents(name');
    CleanLeadsThere(dir, Split(name, '/'));
    CleanLeadsThere(dir, Split(name', '/'));
    WalkDown(dir, r);
    WalkDown(dir, r');
    assert (dir + r)[|dir|..] == r && (dir + r')[|dir|..] == r';
  }

  // ---------------------------------------------------------------- entries

  datatype Mode = Directory | Regular | Special

  datatype Entry = Entry(name: string, encrypted: bool, knownMethod: bool, mode: Mode, size: uint64, compressed: uint64)

  /** The ratio test as the code makes it, in 64-bit arithmetic that wraps. */
  predicate RatioPasses(e: Entry) { RatioTest(e.size, e.compressed) }

  predicate RatioTest(size: uint64, compressed: uint64) {
    size <= RATIO_FREE || size <= Wrapped(compressed)
  }

  /** Wrapping never lets a file through: what passes meets the bound over the naturals. */
  lemma RatioIsSound(e: Entry)
    requires RatioPasses(e) && e.size > RATIO_FREE
    ensures e.size <= (e.compressed + 1) * MAX_RATIO
  {
    var c := (e.compressed + 1) % U64;
    assert c <= e.compressed + 1;
    assert (c * MAX_RATIO) % U64 <= c * MAX_RATIO;
  }

  predicate WithinRatio(size: uint64, compressed: uint64) {
    size <= RATIO_FREE || size <= (compressed + 1) * MAX_RATIO
  }

  /** The product as 64 bits hold it. */
  function Wrapped(compressed: uint64): nat { (compressed + 1) % U64 * MAX_RATIO % U64 }

  lemma WrappedIsLess(compressed: uint64)
    ensures Wrapped(compressed) <= (compressed + 1) * MAX_RATIO
    ensures (compressed + 1) * MAX_RATIO < U64 ==> Wrapped(compressed) == (compressed + 1) * MAX_RATIO
  {
  }

  /** On the sizes that get as far as this test, it is exactly the bound, just when the
      product does not wrap, or wraps to something no such size exceeds. */
  lemma RatioIsExactIff(compressed: uint64)
    ensures (forall size: uint64 {:trigger RatioTest(size, compressed)} | size <= MAX_UNCOMPRESSED ::
               RatioTest(size, compressed) <==> WithinRatio(size, compressed))
       <==> (compressed + 1) * MAX_RATIO < U64 || Wrapped(compressed) >= MAX_UNCOMPRESSED
  {
    WrappedIsLess(compressed);
    if (compressed + 1) * MAX_RATIO >= U64 && Wrapped(compressed) < MAX_UNCOMPRESSED {
      assert !RatioTest(MAX_UNCOMPRESSED, compressed) && WithinRatio(MAX_UNCOMPRESSED, compressed);
    }
  }

  function SizeOf(e: Entry): nat { if e.mode.Regular? then e.size else 0 }

  function Total(entries: seq<Entry>): nat {
    if entries == [] then 0 else Total(entries[..|entries| - 1]) + SizeOf(entries[|entries| - 1])
  }

  function RegularFiles(entries: seq<Entry>): nat {
    if entries == [] then 0
    else RegularFiles(entries[..|entries| - 1]) + if entries[|entries| - 1].mode.Regular? then 1 else 0
  }

  predicate EntryOk(e: Entry) {
    && SafePath(e.name).Some? && !e.encrypted && e.knownMethod && !e.mode.Special?
    && (e.mode.Regular? ==> RatioPasses(e))
  }

  function Paths(entries: seq<Entry>): (s: seq<Option<string>>)
    ensures |s| == |entries| && forall i | 0 <= i < |s| :: s[i] == SafePath(entries[i].name)
  {
    seq(|entries|, i requires 0 <= i < |entries| => SafePath(entries[i].name))
  }

  /** The archives that are accepted. */
  predicate Acceptable(entries: seq<Entry>) {
    && 0 < |entries| <= MAX_FILES
    && AllOk(entries) && Distinct(Paths(entries)) && Total(entries) <= MAX_UNCOMPRESSED && RegularFiles(entries) > 0
  }

  datatype Info = Info(files: nat, bytes: nat)

  lemma {:induction false} TotalGrows(entries: seq<Entry>, i: nat)
    requires i <= |entries|
    ensures Total(entries[..i]) <= Total(entries)
    decreases |entries| - i
  {
    if i < |entries| {
      assert entries[..i + 1][..i] == entries[..i];
      TotalGrows(entries, i + 1);
    } else {
      assert entries[..i] == entries;
    }
  }

  lemma OneMoreEntry(entries: seq<Entry>, i: nat)
    requires i < |entries|
    ensures Total(entries[..i + 1]) == Total(entries[..i]) + SizeOf(entries[i]) <= Total(entries)
    ensures RegularFiles(entries[..i + 1]) == RegularFiles(entries[..i]) + if entries[i].mode.Regular? then 1 else 0
  {
    assert entries[..i + 1][..i] == entries[..i];
    TotalGrows(entries, i + 1);
  }

  /** What looking at one more entry must come to. */
  predicate Judged(e: Entry, seen: set<Option<string>>, info: Info, r: Option<Info>) {
    && (r.Some? <==> EntryOk(e) && SafePath(e.name) !in seen && info.bytes + SizeOf(e) <= MAX_UNCOMPRESSED)
    && (r.Some? ==> r.value == Info(info.files + (if e.mode.Regular? then 1 else 0), info.bytes + SizeOf(e)))
  }

  predicate AllOk(entries: seq<Entry>) {
    forall i {:trigger EntryOk(entries[i])} | 0 <= i < |entries| :: EntryOk(entries[i])
  }

  /** The first `i` entries leave nothing to object to, but perhaps that there is no
      file; `seen` are their paths and `info` what they add up to. */
  ghost predicate OkSoFar(entries: seq<Entry>, i: nat, seen: set<Option<string>>, info: Info) {
    && i <= |entries| && AllOk(entries[..i])
    && Distinct(Paths(entries)[..i]) && seen == Members(Paths(entries)[..i])
    && info == Info(RegularFiles(entries[..i]), Total(entries[..i])) && info.bytes <= MAX_UNCOMPRESSED
  }

  lemma OneMore(entries: seq<Entry>, i: nat, seen: set<Option<string>>, info: Info, next: Option<Info>)
    requires i < |entries| && OkSoFar(entries, i, seen, info) && Judged(entries[i], seen, info, next)
    ensures next.None? ==> !Acceptable(entries)
    ensures next.Some? ==> OkSoFar(entries, i + 1, seen + {SafePath(entries[i].name)}, next.value)
  {
    DistinctOneMore(Paths(entries), i);
    OneMoreEntry(entries, i);
    AllOkOneMore(entries, i);
  }

  lemma AllOkOneMore(entries: seq<Entry>, i: nat)
    requires i < |entries|
    ensures AllOk(entries[..i + 1]) <==> AllOk(entries[..i]) && EntryOk(entries[i])
    ensures AllOk(entries) ==> EntryOk(entries[i])
  {
    var before, upTo := entries[..i], entries[..i + 1];
    assert AllOk(upTo) ==> EntryOk(upTo[i]);
    forall j | 0 <= j < i ensures AllOk(upTo) ==> EntryOk(before[j]) {
      assert before[j] == upTo[j];
    }
    forall j | 0 <= j < i ensures AllOk(before) ==> EntryOk(upTo[j]) {
      assert before[j] == upTo[j];
    }
  }

  lemma AllInspected(entries: seq<Entry>, seen: set<Option<string>>, info: Info)
    requires OkSoFar(entries, |entries|, seen, info)
    ensures AllOk(entries) && Distinct(Paths(entries)) && info == Info(RegularFiles(entries), Total(entries))
    ensures info.bytes <= MAX_UNCOMPRESSED
  {
    assert entries[..|entries|] == entries && Paths(entries)[..|entries|] == Paths(entries);
  }

  /** The tests made of one entry, given what came before it. */
  method InspectEntry(e: Entry, seen: set<Option<string>>, info: Info) returns (r: Option<Info>)
    requires info.bytes <= MAX_UNCOMPRESSED
    ensures Judged(e, seen, info, r)
  {
    var clean := SafePath(e.name);
    if clean.None? || clean in seen || e.encrypted || !e.knownMethod || e.mode.Special? { return None; }
    if e.mode.Directory? { return Some(info); }
    var room: uint64 := MAX_UNCOMPRESSED - info.bytes;
    if e.size > room { return None; }
    if e.size > RATIO_FREE && e.size > ((e.compressed + 1) % U64 * MAX_RATIO) % U64 { return None; }
    return Some(Info(info.files + 1, info.bytes + e.size));
  }

  /** Accepts exactly the acceptable archives and reports their files and bytes. */
  method Inspect(entries: seq<Entry>) returns (r: Option<Info>)
    ensures r.Some? <==> Acceptable(entries)
    ensures r.Some? ==> r.value == Info(RegularFiles(entries), Total(entries))
  {
    if |entries| == 0 || |entries| > MAX_FILES { return None; }
    var seen: set<Option<string>> := {};
    var info := Info(0, 0);
    for i := 0 to |entries|
      invariant OkSoFar(entries, i, seen, info)
    {
      var next := InspectEntry(entries[i], seen, info);
      OneMore(entries, i, seen, info, next);
      if next.None? { return None; }
      seen := seen + {SafePath(entries[i].name)};
      info := next.value;
    }
    AllInspected(entries, seen, info);
    if info.files == 0 { return None; }
    return Some(info);
  }

  /** An archive of one file within the ratio that is refused, for its stated compressed
      size alone: two mebibytes, the product wrapping to 184. */
  lemma RefusedWithinRatio()
    ensures var e := Entry("a", false, true, Regular, 2097152, 92233720368547758);
            WithinRatio(e.size, e.compressed) && !Acceptable([e]) && Acceptable([e.(compressed := 2097152)])
  {
    var e := Entry("a", false, true, Regular, 2097152, 92233720368547758);
    var plain := e.(compressed := 2097152);
    assert Wrapped(e.compressed) == 184;
    assert [e][0] == e && !EntryOk(e);
    OneOrdinaryFile(plain);
  }

  lemma OneOrdinaryFile(e: Entry)
    requires e.name == "a" && !e.encrypted && e.knownMethod && e.mode.Regular? && RatioPasses(e) && e.size <= MAX_UNCOMPRESSED
    ensures Acceptable([e])
  {
    PlainPath();
    assert [e][..0] == [];
    assert Total([e]) == e.size && RegularFiles([e]) == 1;
  }

  lemma PlainPath()
    ensures SafePath("a") == Some("a")
  {
    assert Join(["a"], '/') == "a";
    SplitJoin(["a"], '/');
    assert CleanComponents(["a"][..0]) == [];
    assert CleanComponents(["a"]) == ["a"];
    assert Clean("a") == "a";
  }

  // ---------------------------------------------------------------- extraction

  /** What unpacking one entry meets: whether the file system refuses it, how many
      bytes its stream really holds, and whether reading breaks off after some. */
  datatype Stream = Stream(refused: bool, actual: nat, breaksAfter: Option<nat>)

  /** How many bytes `io.Copy` writes through a reader limited to `limit`. */
  function Copied(s: Stream, limit: nat): nat {
    Least(Least(s.actual, limit), if s.breaksAfter.Some? then s.breaksAfter.value else limit)
  }

  datatype Extraction = Done(files: map<string, nat>) | Failed

  /** Unpacks one regular file, having written `extracted` bytes before. */
  method ExtractFile(e: Entry, s: Stream, extracted: nat) returns (ok: bool, n: nat)
    requires extracted <= MAX_UNCOMPRESSED
    ensures extracted + n <= MAX_UNCOMPRESSED + 1
    ensures ok ==> n == e.size && extracted + n <= MAX_UNCOMPRESSED
    ensures ok <==> !s.refused && s.breaksAfter.None? && s.actual == e.size && extracted + e.size <= MAX_UNCOMPRESSED
  {
    ok, n := false, 0;
    if s.refused { return; }
    var remaining: nat := MAX_UNCOMPRESSED - extracted;
    n := Copied(s, remaining + 1);
    if s.breaksAfter.Some? { return; }
    if n > remaining { return; }
    ok := n == e.size;
  }

  /** The file system lets the entry in, and a file's stream holds what it declares. */
  predicate Unpacks(e: Entry, s: Stream) {
    !s.refused && (e.mode.Regular? ==> s.breaksAfter.None? && s.actual == e.size)
  }

  ghost predicate AllUnpack(entries: seq<Entry>, streams: seq<Stream>)
    requires |streams| == |entries|
  {
    forall i {:trigger Unpacks(entries[i], streams[i])} | 0 <= i < |entries| :: Unpacks(entries[i], streams[i])
  }

  /** The first `i` entries are unpacked, into these files and this many bytes. */
  ghost predicate UnpackedSoFar(entries: seq<Entry>, streams: seq<Stream>, i: nat, written: nat, files: map<string, nat>)
    requires |streams| == |entries|
  {
    && i <= |entries| && AllUnpack(entries[..i], streams[..i])
    && written == Total(entries[..i]) <= MAX_UNCOMPRESSED && files == DeclaredFiles(entries[..i])
  }

  lemma RoomFor(entries: seq<Entry>, i: nat)
    requires Acceptable(entries) && i < |entries|
    ensures Total(entries[..i]) + SizeOf(entries[i]) <= MAX_UNCOMPRESSED
    ensures SafePath(entries[i].name).Some? && !entries[i].mode.Special?
  {
    OneMoreEntry(entries, i);
    assert EntryOk(entries[i]);
  }

  lemma OneMoreUnpacked(entries: seq<Entry>, streams: seq<Stream>, i: nat, written: nat, files: map<string, nat>)
    requires |streams| == |entries| && i < |entries| && UnpackedSoFar(entries, streams, i, written, files)
    requires Total(entries[..i]) + SizeOf(entries[i]) <= MAX_UNCOMPRESSED
    requires SafePath(entries[i].name).Some? && !entries[i].mode.Special?
    ensures !Unpacks(entries[i], streams[i]) ==> !AllUnpack(entries, streams)
    ensures Unpacks(entries[i], streams[i]) && entries[i].mode.Directory? ==> UnpackedSoFar(entries, streams, i + 1, written, files)
    ensures Unpacks(entries[i], streams[i]) && entries[i].mode.Regular? ==>
      UnpackedSoFar(entries, streams, i + 1, written + entries[i].size, files[SafePath(entries[i].name).value := entries[i].size])
  {
    assert entries[..i + 1][..i] == entries[..i];
    var es, ss := entries[..i + 1], streams[..i + 1];
    forall j | 0 <= j < i ensures Unpacks(es[j], ss[j]) {
      assert Unpacks(entries[..i][j], streams[..i][j]);
    }
  }

  lemma AllUnpacked(entries: seq<Entry>, streams: seq<Stream>, written: nat, files: map<string, nat>)
    requires |streams| == |entries| && UnpackedSoFar(entries, streams, |entries|, written, files)
    ensures AllUnpack(entries, streams) && written == Total(entries) && files == DeclaredFiles(entries)
  {
    assert entries[..|entries|] == entries && streams[..|entries|] == streams;
  }

  /** Extracts an archive into an empty directory. On any exit at most one byte more
      than the limit has been written; a success has written exactly the files the
      archive declares, each with its declared size. */
  method Extract(entries: seq<Entry>, destinationEmpty: bool, streams: seq<Stream>)
    returns (r: Extraction, written: nat)
    requires |streams| == |entries|
    ensures written <= MAX_UNCOMPRESSED + 1
    ensures !Acceptable(entries) || !destinationEmpty ==> r.Failed? && written == 0
    ensures r.Done? <==> Acceptable(entries) && destinationEmpty && AllUnpack(entries, streams)
    ensures r.Done? ==> written == Total(entries)
    ensures r.Done? ==> r.files == DeclaredFiles(entries)
  {
    r, written := Failed, 0;
    var info := Inspect(entries);
    if info.None? { return; }
    if !destinationEmpty { return; }
    var files: map<string, nat> := map[];
    for i := 0 to |entries|
      invariant r.Failed? && UnpackedSoFar(entries, streams, i, written, files)
    {
      RoomFor(entries, i);
      OneMoreUnpacked(entries, streams, i, written, files);
      if entries[i].mode.Directory? {
        if streams[i].refused { return; }
        continue;
      }
      var ok, n := ExtractFile(entries[i], streams[i], written);
      written := written + n;
      if !ok { return; }
      files := files[SafePath(entries[i].name).value := n];
    }
    AllUnpacked(entries, streams, written, files);
    r := Done(files);
  }

  /** The regular files of an archive by cleaned path, with their declared sizes. */
  function DeclaredFiles(entries: seq<Entry>): map<string, nat> {
    if entries == [] then map[] else
      var init, e := DeclaredFiles(entries[..|entries| - 1]), entries[|entries| - 1];
      if e.mode.Regular? && SafePath(e.name).Some? then init[SafePath(e.name).value := e.size] else init
  }

  /** In an acceptable archive no file's path takes another's place. */
  lemma {:induction false} DeclaredFilesAt(entries: seq<Entry>, i: nat)
    requires Distinct(Paths(entries)) && i < |entries| && entries[i].mode.Regular? && SafePath(entries[i].name).Some?
    ensures SafePath(entries[i].name).value in DeclaredFiles(entries)
    ensures DeclaredFiles(entries)[SafePath(entries[i].name).value] == entries[i].size
  {
    var init := entries[..|entries| - 1];
    if i < |init| {
      assert Paths(init) == Paths(entries)[..|init|];
      DeclaredFilesAt(init, i);
      assert Paths(entries)[i] != Paths(entries)[|init|];
    }
  }
}
