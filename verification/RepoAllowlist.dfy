/** The repository allowlist's canonical form, and its newline-delimited text. */
module RepoAllowlist {
  import opened Slices
  import opened Sorting
  import opened Text
  import Base64

  const MAX_REPOSITORY_LENGTH := 140
  const MAX_REPOSITORIES := 400

  datatype Error = TooMany | TooLong(repository: string) | Malformed(repository: string)

  datatype Result<+T> = Ok(value: T) | Err(error: Error)

  // ---------------------------------------------------------------- one repository

  predicate RepoChar(c: char) {
    'A' <= c <= 'Z' || 'a' <= c <= 'z' || '0' <= c <= '9' || c == '.' || c == '_' || c == '-'
  }

  /** Two nonempty runs of repository characters around one slash. */
  predicate IsRepository(s: string) {
    exists i | 0 < i < |s| - 1 :: s[i] == '/' && forall j | 0 <= j < |s| && j != i :: RepoChar(s[j])
  }

  function ByteWidth(c: char): (n: nat)
    ensures 1 <= n <= 4
  {
    var n := c as int;
    if n < 0x80 then 1 else if n < 0x800 then 2 else if n < 0x10000 then 3 else 4
  }

  /** The length of a string in bytes, which is what Go's `len` measures. */
  function ByteLength(s: string): (n: nat)
    ensures n >= |s|
    ensures n == |s| <==> IsAscii(s)
  {
    if s == "" then 0 else
      assert s == [s[0]] + s[1..];
      assert IsAscii(s) <==> (s[0] as int) < 0x80 && IsAscii(s[1..]);
      ByteWidth(s[0]) + ByteLength(s[1..])
  }

  predicate IsAscii(s: string) { forall i | 0 <= i < |s| :: (s[i] as int) < 0x80 }

  predicate Acceptable(s: string) {
    ByteLength(s) <= MAX_REPOSITORY_LENGTH && IsRepository(s)
  }

  /** In canonical form: acceptable, and unchanged by trimming and lowercasing. */
  predicate Canonical(s: string) {
    Acceptable(s) && ToLower(s) == s
  }

  lemma RepositoryChars(s: string)
    requires IsRepository(s)
    ensures s != "" && TrimSpace(s) == s && '\n' !in s
    ensures IsAscii(s)
  {
    TrimSpaceNothing(s);
  }

  lemma LowerIsRepository(s: string)
    requires IsRepository(s)
    ensures IsRepository(ToLower(s))
  {
    var t := ToLower(s);
    var i :| 0 < i < |s| - 1 && s[i] == '/' && forall j | 0 <= j < |s| && j != i :: RepoChar(s[j]);
    assert t[i] == '/' && forall j | 0 <= j < |t| && j != i :: RepoChar(t[j]);
  }

  lemma LowerTwice(s: string)
    ensures ToLower(ToLower(s)) == ToLower(s)
  {
  }

  lemma LowerIsCanonical(s: string)
    requires Acceptable(s)
    ensures Canonical(ToLower(s))
  {
    LowerIsRepository(s);
    LowerTwice(s);
    RepositoryChars(s);
    RepositoryChars(ToLower(s));
  }

  // ---------------------------------------------------------------- lists

  /** The entries that are not blank, trimmed. */
  function Entries(repositories: seq<string>): (r: seq<string>)
    ensures |r| <= |repositories|
  {
    if repositories == [] then [] else
      var init, last := repositories[..|repositories| - 1], TrimSpace(repositories[|repositories| - 1]);
      assert repositories == init + [repositories[|repositories| - 1]];
      Entries(init) + if last == "" then [] else [last]
  }

  /** The entries are the trimmed forms that are not empty, and nothing else. */
  lemma {:induction false} EntriesAre(repositories: seq<string>, x: string)
    ensures x in Entries(repositories) <==> x != "" && exists y :: y in repositories && TrimsTo(y, x)
  {
    if repositories != [] {
      var init, last := repositories[..|repositories| - 1], repositories[|repositories| - 1];
      assert repositories == init + [last];
      EntriesAre(init, x);
      assert last in repositories;
      assert x == TrimSpace(last) <==> TrimsTo(last, x);
    }
  }

  predicate TrimsTo(y: string, x: string) { TrimSpace(y) == x }

  predicate Accepted(repositories: seq<string>) {
    && |Entries(repositories)| <= MAX_REPOSITORIES
    && forall x | x in Entries(repositories) :: Acceptable(x)
  }

  function Names(repositories: seq<string>): set<string> {
    set x | x in Entries(repositories) :: ToLower(x)
  }

  ghost predicate StrictlySorted(s: seq<string>) {
    forall i, j | 0 <= i < j < |s| :: StringLeq(s[i], s[j]) && s[i] != s[j]
  }

  /** A strictly sorted list is determined by its members. */
  lemma {:induction false} SortedUnique(a: seq<string>, b: seq<string>)
    requires StrictlySorted(a) && StrictlySorted(b)
    requires forall x :: x in a <==> x in b
    ensures a == b
  {
    assert b != [] ==> b[0] in b;
    if a != [] {
      assert a[0] in b && b != [] && b[0] in a;
      var i :| 0 <= i < |b| && b[i] == a[0];
      var j :| 0 <= j < |a| && a[j] == b[0];
      if i > 0 && j > 0 { StringLeqAntisymmetric(a[0], b[0]); }
      assert a[0] == b[0] && a[0] !in a[1..] && b[0] !in b[1..];
      forall x ensures x in a[1..] <==> x in b[1..] {
        assert a == [a[0]] + a[1..] && b == [b[0]] + b[1..];
        assert x in a <==> x == a[0] || x in a[1..];
        assert x in b <==> x == b[0] || x in b[1..];
      }
      SortedUnique(a[1..], b[1..]);
      assert a == [a[0]] + a[1..] && b == [b[0]] + b[1..];
    }
  }

  lemma LeqIsTotalPreorder()
    ensures TotalPreorder(StringLeq)
  {
    forall a, b ensures StringLeq(a, b) || StringLeq(b, a) { StringLeqTotal(a, b); }
    forall a, b, c | StringLeq(a, b) && StringLeq(b, c) ensures StringLeq(a, c) { StringLeqTransitive(a, b, c); }
  }

  lemma SortNames(s: seq<string>)
    requires Distinct(s)
    ensures StrictlySorted(Sort(s, StringLeq))
    ensures forall x :: x in Sort(s, StringLeq) <==> x in s
  {
    LeqIsTotalPreorder();
    SortSorts(s, StringLeq);
    SortMembers(s, StringLeq);
    PermutationDistinct(Sort(s, StringLeq), s);
  }

  // ---------------------------------------------------------------- Normalize

  /** Accepts exactly the lists whose non-blank entries are at most 400 well-formed
      names; the result is the sorted list, without repeats, of their lowercase forms. */
  method Normalize(repositories: seq<string>) returns (r: Result<seq<string>>)
    ensures r.Ok? <==> Accepted(repositories)
    ensures r.Ok? ==> IsNormalForm(repositories, r.value)
    ensures r == Err(TooMany) ==> |Entries(repositories)| > MAX_REPOSITORIES
    ensures r.Err? && r.error.TooLong? ==>
      r.error.repository in Entries(repositories) && ByteLength(r.error.repository) > MAX_REPOSITORY_LENGTH
    ensures r.Err? && r.error.Malformed? ==>
      r.error.repository in Entries(repositories) && !IsRepository(r.error.repository)
  {
    var names: set<string> := {};
    var nonEmpty := 0;
    for i := 0 to |repositories|
      invariant nonEmpty == |Entries(repositories[..i])|
      invariant Accepted(repositories[..i])
      invariant names == Names(repositories[..i])
    {
      var repository := TrimSpace(repositories[i]);
      OneMore(repositories, i, repository);
      if repository != "" {
        nonEmpty := nonEmpty + 1;
        if nonEmpty > MAX_REPOSITORIES { return Err(TooMany); }
        if ByteLength(repository) > MAX_REPOSITORY_LENGTH { return Err(TooLong(repository)); }
        if !IsRepository(repository) { return Err(Malformed(repository)); }
        names := names + {ToLower(repository)};
      }
    }
    assert repositories[..|repositories|] == repositories;
    var out := Collect(names);
    SortNames(out);
    return Ok(Sort(out, StringLeq));
  }

  /** Looking at one more entry: what has to hold for it to be taken in, and that
      refusing it refuses the whole list. */
  lemma OneMore(repositories: seq<string>, i: nat, t: string)
    requires i < |repositories| && t == TrimSpace(repositories[i]) && Accepted(repositories[..i])
    ensures t == "" ==> Entries(repositories[..i + 1]) == Entries(repositories[..i])
    ensures t != "" ==> |Entries(repositories[..i + 1])| == |Entries(repositories[..i])| + 1
    ensures Names(repositories[..i + 1]) == Names(repositories[..i]) + if t == "" then {} else {ToLower(t)}
    ensures Accepted(repositories[..i + 1]) <==> t == "" || (|Entries(repositories[..i])| < MAX_REPOSITORIES && Acceptable(t))
    ensures !Accepted(repositories[..i + 1]) ==> !Accepted(repositories)
    ensures t != "" ==> t in Entries(repositories) && |Entries(repositories[..i])| < |Entries(repositories)|
  {
    EntriesOneMore(repositories, i);
    EntriesGrow(repositories, i + 1);
    var e := Entries(repositories[..i]);
    if t != "" {
      assert t in e + [t];
      assert Names(repositories[..i + 1]) == Names(repositories[..i]) + {ToLower(t)};
    }
  }

  /** The members of a set, in whatever order its iteration gives them. */
  method Collect(names: set<string>) returns (out: seq<string>)
    ensures Distinct(out) && forall x :: x in out <==> x in names
  {
    out := [];
    var todo := names;
    while todo != {}
      invariant todo <= names && Distinct(out)
      invariant forall x :: x in out <==> x in names && x !in todo
      decreases todo
    {
      var x :| x in todo;
      todo := todo - {x};
      out := out + [x];
    }
  }

  ghost predicate IsNormalForm(repositories: seq<string>, v: seq<string>) {
    StrictlySorted(v) && forall x :: x in v <==> x in Names(repositories)
  }

  lemma EntriesOneMore(repositories: seq<string>, i: nat)
    requires i < |repositories|
    ensures var t := TrimSpace(repositories[i]);
            Entries(repositories[..i + 1]) == Entries(repositories[..i]) + if t == "" then [] else [t]
  {
    assert repositories[..i + 1][..i] == repositories[..i];
  }

  lemma {:induction false} EntriesGrow(repositories: seq<string>, i: nat)
    requires i <= |repositories|
    ensures |Entries(repositories[..i])| <= |Entries(repositories)|
    ensures forall x | x in Entries(repositories[..i]) :: x in Entries(repositories)
    decreases |repositories| - i
  {
    if i == |repositories| {
      assert repositories[..i] == repositories;
    } else {
      EntriesOneMore(repositories, i);
      EntriesGrow(repositories, i + 1);
    }
  }

  /** The normal form of an accepted list, as a value. */
  ghost function NormalForm(repositories: seq<string>): (v: seq<string>)
    ensures IsNormalForm(repositories, v)
  {
    NormalFormExists(repositories);
    var v :| IsNormalForm(repositories, v);
    v
  }

  lemma NormalFormExists(repositories: seq<string>)
    ensures exists v :: IsNormalForm(repositories, v)
  {
    var s := SetToSeq(Names(repositories));
    SortNames(s);
    assert IsNormalForm(repositories, Sort(s, StringLeq));
  }

  ghost function SetToSeq(names: set<string>): (s: seq<string>)
    ensures Distinct(s) && forall x :: x in s <==> x in names
  {
    if names == {} then [] else
      var x :| x in names;
      [x] + SetToSeq(names - {x})
  }

  lemma NormalFormUnique(repositories: seq<string>, v: seq<string>)
    requires IsNormalForm(repositories, v)
    ensures v == NormalForm(repositories)
  {
    SortedUnique(v, NormalForm(repositories));
  }

  // ---------------------------------------------------------------- what the normal form is

  /** Every member of an accepted list's normal form is in canonical form, and there
      are at most 400 of them. */
  lemma NormalFormCanonical(repositories: seq<string>)
    requires Accepted(repositories)
    ensures forall x | x in NormalForm(repositories) :: Canonical(x)
    ensures |NormalForm(repositories)| <= MAX_REPOSITORIES
  {
    forall x | x in NormalForm(repositories) ensures Canonical(x) {
      var y :| y in Entries(repositories) && x == ToLower(y);
      LowerIsCanonical(y);
    }
    NoMoreNames(Entries(repositories), NormalForm(repositories));
  }

  lemma NoMoreNames(e: seq<string>, v: seq<string>)
    requires StrictlySorted(v) && forall x | x in v :: exists y :: y in e && x == ToLower(y)
    ensures |v| <= |e|
  {
    var lowered := seq(|e|, i requires 0 <= i < |e| => ToLower(e[i]));
    forall x | x in v ensures x in lowered {
      var y :| y in e && x == ToLower(y);
      var i :| 0 <= i < |e| && e[i] == y;
      assert lowered[i] == x;
    }
    DistinctLength(v, lowered);
  }

  lemma {:induction false} CanonicalEntries(v: seq<string>)
    requires forall x | x in v :: Canonical(x)
    ensures Entries(v) == v
  {
    if v != [] {
      var init, last := v[..|v| - 1], v[|v| - 1];
      assert v == init + [last];
      CanonicalEntries(init);
      assert last in v;
      RepositoryChars(last);
    }
  }

  lemma CanonicalNames(v: seq<string>)
    requires forall x | x in v :: Canonical(x)
    ensures Names(v) == set x | x in v
  {
    CanonicalEntries(v);
    forall x | x in v ensures x in Names(v) {
      assert ToLower(x) == x;
    }
  }

  /** Normalizing twice is normalizing once. */
  lemma NormalizeIdempotent(repositories: seq<string>)
    requires Accepted(repositories)
    ensures Accepted(NormalForm(repositories))
    ensures NormalForm(NormalForm(repositories)) == NormalForm(repositories)
  {
    var v := NormalForm(repositories);
    NormalFormCanonical(repositories);
    CanonicalEntries(v);
    CanonicalNames(v);
    NormalFormUnique(v, v);
  }

  lemma {:induction false} EntriesPermuted(a: seq<string>)
    ensures multiset(Entries(a)) == TrimmedBag(a)
  {
    if a != [] {
      var init := a[..|a| - 1];
      EntriesPermuted(init);
    }
  }

  function TrimmedBag(a: seq<string>): multiset<string> { Gather(a, TrimmedOne) }

  function TrimmedOne(x: string): multiset<string> {
    var t := TrimSpace(x);
    if t == "" then multiset{} else multiset{t}
  }

  /** The bags of all elements, poured together. */
  function Gather<T>(a: seq<T>, bag: T -> multiset<string>): multiset<string> {
    if a == [] then multiset{} else Gather(a[..|a| - 1], bag) + bag(a[|a| - 1])
  }

  lemma {:induction false} GatherWithout<T>(a: seq<T>, i: nat, bag: T -> multiset<string>)
    requires i < |a|
    ensures Gather(a, bag) == Gather(Without(a, i), bag) + bag(a[i])
  {
    WithoutPrefix(a, i);
    if i < |a| - 1 { GatherWithout(a[..|a| - 1], i, bag); }
  }

  lemma RemoveOne<T>(a: seq<T>, b: seq<T>, i: nat)
    requires a != [] && i < |b| && multiset(a) == multiset(b) && b[i] == a[|a| - 1]
    ensures multiset(a[..|a| - 1]) == multiset(Without(b, i))
  {
    TakeOut(a, |a| - 1);
    TakeOut(b, i);
    WithoutPrefix(a, |a| - 1);
    Cancel(multiset(a[..|a| - 1]), multiset(Without(b, i)), b[i]);
  }

  lemma Cancel<T>(m: multiset<T>, n: multiset<T>, x: T)
    requires m + multiset{x} == n + multiset{x}
    ensures m == n
  {
    assert (m + multiset{x}) - multiset{x} == m && (n + multiset{x}) - multiset{x} == n;
  }

  lemma TakeOut<T>(b: seq<T>, i: nat)
    requires i < |b|
    ensures multiset(b) == multiset(Without(b, i)) + multiset{b[i]}
  {
    assert b == b[..i] + ([b[i]] + b[i + 1..]);
  }

  lemma {:induction false} GatherPermuted<T>(a: seq<T>, b: seq<T>, bag: T -> multiset<string>)
    requires multiset(a) == multiset(b)
    ensures Gather(a, bag) == Gather(b, bag)
    decreases |a|
  {
    SameSize(a, b);
    if a != [] {
      assert a[|a| - 1] in multiset(b);
      var i :| 0 <= i < |b| && b[i] == a[|a| - 1];
      GatherWithout(b, i, bag);
      RemoveOne(a, b, i);
      GatherPermuted(a[..|a| - 1], Without(b, i), bag);
    }
  }

  /** The order of the input does not matter: neither to whether it is accepted nor
      to the result. */
  lemma OrderDoesNotMatter(a: seq<string>, b: seq<string>)
    requires multiset(a) == multiset(b)
    ensures Accepted(a) <==> Accepted(b)
    ensures NormalForm(a) == NormalForm(b)
  {
    EntriesPermuted(a);
    EntriesPermuted(b);
    GatherPermuted(a, b, TrimmedOne);
    SameSize(Entries(a), Entries(b));
    forall x ensures x in Entries(a) <==> x in Entries(b) {
      assert x in Entries(a) <==> x in multiset(Entries(a));
      assert x in Entries(b) <==> x in multiset(Entries(b));
    }
    assert Names(a) == Names(b);
    NormalFormUnique(b, NormalForm(a));
  }

  // ---------------------------------------------------------------- Format and Parse

  /** The canonical text of an accepted list: one name per line. */
  ghost function FormatText(v: seq<string>): string {
    if v == [] then "" else Join(v, '\n') + "\n"
  }

  method Format(repositories: seq<string>) returns (r: Result<string>)
    ensures r.Ok? <==> Accepted(repositories)
    ensures r.Ok? ==> r.value == FormatText(NormalForm(repositories))
  {
    var normalized := Normalize(repositories);
    if normalized.Err? { return Err(normalized.error); }
    NormalFormUnique(repositories, normalized.value);
    if |normalized.value| == 0 { return Ok(""); }
    return Ok(Join(normalized.value, '\n') + "\n");
  }

  method Parse(raw: string) returns (r: Result<seq<string>>)
    ensures r.Ok? <==> Accepted(Split(raw, '\n'))
    ensures r.Ok? ==> r.value == NormalForm(Split(raw, '\n'))
  {
    r := Normalize(Split(raw, '\n'));
    if r.Ok? { NormalFormUnique(Split(raw, '\n'), r.value); }
  }

  /** Reading the text back: the names, and the blank piece after the last newline. */
  lemma SplitFormatText(v: seq<string>)
    requires forall x | x in v :: '\n' !in x
    ensures Split(FormatText(v), '\n') == v + [""]
  {
    if v == [] {
      assert v + [""] == [""];
    } else {
      var parts := v + [""];
      SplitJoin(parts, '\n');
      JoinWithLast(v);
    }
  }

  lemma {:induction false} JoinWithLast(v: seq<string>)
    requires v != []
    ensures Join(v + [""], '\n') == Join(v, '\n') + "\n"
  {
    if |v| == 1 {
      assert (v + [""])[1..] == [""];
      assert Join(v + [""], '\n') == v[0] + ['\n'] + "";
    } else {
      JoinWithLast(v[1..]);
      assert (v + [""])[1..] == v[1..] + [""];
    }
  }

  /** Parsing what Format wrote gives the normal form of what was formatted. */
  lemma ParseFormat(repositories: seq<string>)
    requires Accepted(repositories)
    ensures var pieces := Split(FormatText(NormalForm(repositories)), '\n');
            Accepted(pieces) && NormalForm(pieces) == NormalForm(repositories)
  {
    var v := NormalForm(repositories);
    NormalFormCanonical(repositories);
    forall x | x in v ensures '\n' !in x { RepositoryChars(x); }
    SplitFormatText(v);
    var pieces := v + [""];
    assert pieces[..|v|] == v;
    EntriesOneMore(pieces, |v|);
    assert pieces[..|v| + 1] == pieces;
    CanonicalEntries(v);
    assert Entries(pieces) == v;
    CanonicalNames(v);
    assert Names(pieces) == Names(v);
    NormalFormUnique(pieces, v);
  }

  // ---------------------------------------------------------------- the seed manifest fits one command

  /** What `%q` makes of text holding only name characters, slashes and newlines. */
  function Quoted(s: string): string {
    if s == "" then "" else (if s[0] == '\n' then "\\n" else [s[0]]) + Quoted(s[1..])
  }

  function Manifest(data: string): string {
    "apiVersion: v1\nkind: ConfigMap\nmetadata:\n  name: orkano-repo-allowlist\n  namespace: orkano-system\ndata:\n  repositories: \""
    + Quoted(data) + "\"\n"
  }

  lemma {:induction false} QuotedAppend(a: string, b: string)
    ensures Quoted(a + b) == Quoted(a) + Quoted(b)
  {
    if a == "" {
      assert a + b == b;
    } else {
      assert (a + b)[1..] == a[1..] + b;
      QuotedAppend(a[1..], b);
    }
  }

  lemma {:induction false} QuotedName(s: string)
    requires '\n' !in s
    ensures |Quoted(s)| == |s|
  {
    if s != "" {
      assert forall c | c in s[1..] :: c in s;
      QuotedName(s[1..]);
    }
  }

  lemma QuotedLine(x: string, rest: string)
    requires Canonical(x)
    ensures |Quoted(x + "\n" + rest)| <= MAX_REPOSITORY_LENGTH + 2 + |Quoted(rest)|
  {
    RepositoryChars(x);
    QuotedName(x);
    QuotedAppend(x, "\n");
    QuotedAppend(x + "\n", rest);
    assert Quoted("\n") == "\\n";
  }

  lemma FormatFirst(v: seq<string>)
    requires v != []
    ensures FormatText(v) == v[0] + "\n" + FormatText(v[1..])
  {
  }

  lemma {:induction false} QuotedLength(v: seq<string>)
    requires forall x | x in v :: Canonical(x)
    ensures |Quoted(FormatText(v))| <= |v| * (MAX_REPOSITORY_LENGTH + 2)
  {
    if v != [] {
      FormatFirst(v);
      QuotedLine(v[0], FormatText(v[1..]));
      QuotedLength(v[1..]);
    }
  }

  /** The base64 of the seed manifest of any accepted list stays within the limit
      for a payload written by one command. */
  lemma ManifestFits(repositories: seq<string>, manifest: seq<Base64.byte>)
    requires Accepted(repositories)
    requires |manifest| == |Manifest(FormatText(NormalForm(repositories)))|
    ensures |Base64.Encode(manifest)| <= Base64.MAX_INLINE_BASE64
  {
    var v := NormalForm(repositories);
    NormalFormCanonical(repositories);
    QuotedLength(v);
    assert |v| * 142 <= 400 * 142;
    assert |manifest| <= 56800 + 150;
  }
}
