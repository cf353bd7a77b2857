/** The file names of the manifests written to the k3s auto-deploy directory. k3s
    takes a file's name up to its first dot for the identity of the AddOn. */
module ManifestNames {
  import opened Slices
  import opened Sorting
  import opened Text

  datatype Result = Ok(name: string) | WrongExtension | UnmappableCharacter | NoName | TooLong

  const EXTENSION := ".yaml"
  const MAX_ADDON_NAME: nat := 253

  predicate Alnum(c: char) { 'a' <= c <= 'z' || '0' <= c <= '9' }

  predicate Separator(c: char) { c == '/' || c == '.' || c == '_' || c == '-' }

  /** `path.Ext`: from the last dot of the last path element. */
  function Ext(p: string): string {
    if p == "" || p[|p| - 1] == '/' then ""
    else if p[|p| - 1] == '.' then "."
    else
      var e := Ext(p[..|p| - 1]);
      if e == "" then "" else e + [p[|p| - 1]]
  }

  /** `path.Base`: the last path element. */
  function Base(p: string): string {
    if p == "" then "."
    else
      var q := TrimSlashes(p);
      if q == "" then "/" else LastElement(q)
  }

  function TrimSlashes(p: string): string {
    if p != "" && p[|p| - 1] == '/' then TrimSlashes(p[..|p| - 1]) else p
  }

  function LastElement(p: string): string {
    if p == "" || p[|p| - 1] == '/' then "" else LastElement(p[..|p| - 1]) + [p[|p| - 1]]
  }

  function TrimSuffix(s: string): string {
    if |s| >= |EXTENSION| && s[|s| - |EXTENSION|..] == EXTENSION then s[..|s| - |EXTENSION|] else s
  }

  // ---------------------------------------------------------------- words

  /** The maximal runs of lowercase letters and digits, in order. */
  function Words(s: string): (w: seq<string>)
    ensures forall x | x in w :: IsWord(x)
    ensures s != "" && Alnum(s[|s| - 1]) ==> w != []
  {
    if s == "" then [] else
      var init, c := s[..|s| - 1], s[|s| - 1];
      var w := Words(init);
      if !Alnum(c) then w
      else if init != "" && Alnum(init[|init| - 1]) then
        var last := w[|w| - 1];
        assert last in w && IsWord(last);
        w[..|w| - 1] + [last + [c]]
      else w + [[c]]
  }

  predicate IsWord(x: string) { x != "" && forall i | 0 <= i < |x| :: Alnum(x[i]) }

  /** The words joined by single dashes. */
  function Slug(s: string): string { Join(Words(s), '-') }

  lemma {:induction false} JoinLongerLast(w: seq<string>, c: char)
    requires w != []
    ensures Join(w[..|w| - 1] + [w[|w| - 1] + [c]], '-') == Join(w, '-') + [c]
  {
    var w' := w[..|w| - 1] + [w[|w| - 1] + [c]];
    if |w| > 1 {
      assert w'[1..] == w[1..][..|w| - 2] + [w[1..][|w| - 2] + [c]];
      JoinLongerLast(w[1..], c);
    }
  }

  lemma {:induction false} JoinNonEmpty(w: seq<string>)
    requires forall x | x in w :: IsWord(x)
    ensures Join(w, '-') == "" <==> w == []
  {
    if w != [] { assert w[0] in w; }
  }

  lemma SlugOneMore(s: string, i: nat)
    requires i < |s|
    ensures var c := s[i];
            Slug(s[..i + 1]) ==
            if !Alnum(c) then Slug(s[..i])
            else if (i > 0 && Alnum(s[i - 1])) || Slug(s[..i]) == "" then Slug(s[..i]) + [c]
            else Slug(s[..i]) + ['-'] + [c]
  {
    var t := s[..i + 1];
    assert t[..i] == s[..i] && t[i] == s[i];
    var w := Words(s[..i]);
    JoinNonEmpty(w);
    if Alnum(s[i]) {
      if i > 0 && Alnum(s[i - 1]) {
        assert s[..i][i - 1] == s[i - 1];
        JoinLongerLast(w, s[i]);
      } else if w != [] {
        JoinSnoc(w, [s[i]], '-');
      }
    }
  }

  // ---------------------------------------------------------------- naming a file

  predicate Mappable(stem: string) { forall i | 0 <= i < |stem| :: Alnum(stem[i]) || Separator(stem[i]) }

  /** The words of the path without its extension, joined by single dashes, with the
      extension put back; refused when a character has no mapping, when there are no
      words, or when the name is too long. */
  method ManifestFilename(sourcePath: string) returns (r: Result)
    ensures r == NameOf(sourcePath)
  {
    if Ext(sourcePath) != EXTENSION { return WrongExtension; }
    var stem := TrimSuffix(sourcePath);
    var name, pendingDash := "", false;
    for i := 0 to |stem|
      invariant forall j | 0 <= j < i :: Alnum(stem[j]) || Separator(stem[j])
      invariant name == Slug(stem[..i])
      invariant pendingDash <==> name != "" && i > 0 && !Alnum(stem[i - 1])
    {
      var c := stem[i];
      SlugOneMore(stem, i);
      if Alnum(c) {
        if pendingDash && |name| > 0 {
          name := name + "-";
        }
        name := name + [c];
        pendingDash := false;
      } else if Separator(c) {
        pendingDash := |name| > 0;
      } else {
        assert !Mappable(stem);
        return UnmappableCharacter;
      }
    }
    assert stem[..|stem|] == stem;
    if |name| == 0 { return NoName; }
    if |name| > MAX_ADDON_NAME { return TooLong; }
    return Ok(name + EXTENSION);
  }

  function NameOf(sourcePath: string): Result {
    var stem := TrimSuffix(sourcePath);
    if Ext(sourcePath) != EXTENSION then WrongExtension
    else if !Mappable(stem) then UnmappableCharacter
    else if Slug(stem) == "" then NoName
    else if |Slug(stem)| > MAX_ADDON_NAME then TooLong
    else Ok(Slug(stem) + EXTENSION)
  }

  // ---------------------------------------------------------------- what a name looks like

  /** Letters, digits and single dashes, with a letter or digit at both ends. */
  predicate Dashed(s: string) {
    && s != "" && s[0] != '-' && s[|s| - 1] != '-'
    && (forall i | 0 <= i < |s| :: Alnum(s[i]) || s[i] == '-')
    && (forall i | 0 < i < |s| :: !(s[i - 1] == '-' && s[i] == '-'))
  }

  lemma {:induction false} JoinDashed(w: seq<string>)
    requires w != [] && forall x | x in w :: IsWord(x)
    ensures Dashed(Join(w, '-'))
  {
    assert w[0] in w;
    if |w| > 1 {
      JoinDashed(w[1..]);
      DashedPrefix(w[0], Join(w[1..], '-'));
    }
  }

  lemma DashedPrefix(x: string, rest: string)
    requires IsWord(x) && Dashed(rest)
    ensures Dashed(x + ['-'] + rest)
  {
    var s := x + ['-'] + rest;
    forall i | 0 < i < |s| ensures !(s[i - 1] == '-' && s[i] == '-') {
      if i > |x| + 1 { assert s[i] == rest[i - |x| - 1] && s[i - 1] == rest[i - |x| - 2]; }
    }
  }

  /** What k3s takes for the AddOn's identity. */
  function AddOn(name: string): string {
    if name == "" || name[0] == '.' then "" else [name[0]] + AddOn(name[1..])
  }

  /** The checks `validateManifestFiles` makes of one file. */
  predicate ValidName(name: string) {
    var stem := TrimSuffix(name);
    && Base(name) == name && Ext(name) == EXTENSION
    && stem != "" && |stem| <= MAX_ADDON_NAME
    && (forall i | 0 <= i < |stem| :: Alnum(stem[i]) || stem[i] == '-')
    && stem[0] != '-' && stem[|stem| - 1] != '-'
  }

  lemma {:induction false} LastElementWhole(p: string)
    requires '/' !in p
    ensures LastElement(p) == p && TrimSlashes(p) == p
  {
    if p != "" {
      assert forall c | c in p[..|p| - 1] :: c in p;
      LastElementWhole(p[..|p| - 1]);
      assert p == p[..|p| - 1] + [p[|p| - 1]];
    }
  }

  lemma ExtensionOf(stem: string)
    requires stem != ""
    ensures Ext(stem + EXTENSION) == EXTENSION && TrimSuffix(stem + EXTENSION) == stem
  {
    var a := stem + ".";
    assert (a + "y")[..|a|] == a && (a + "y" + "a")[..|a| + 1] == a + "y";
    assert (a + "y" + "a" + "m")[..|a| + 2] == a + "y" + "a";
    assert (a + "y" + "a" + "m" + "l")[..|a| + 3] == a + "y" + "a" + "m";
    assert Ext(a) == "." && Ext(a + "y") == ".y" && Ext(a + "y" + "a") == ".ya" && Ext(a + "y" + "a" + "m") == ".yam";
    assert stem + EXTENSION == a + "y" + "a" + "m" + "l";
    var s := stem + EXTENSION;
    assert s[|s| - 5..] == EXTENSION && s[..|s| - 5] == stem;
  }

  lemma DashedIsValid(stem: string)
    requires Dashed(stem) && |stem| <= MAX_ADDON_NAME
    ensures ValidName(stem + EXTENSION)
  {
    ExtensionOf(stem);
    LastElementWhole(stem + EXTENSION);
  }

  /** Every name given passes the checks made of a single file, and has no doubled dash. */
  lemma NamesAreValid(sourcePath: string)
    requires NameOf(sourcePath).Ok?
    ensures ValidName(NameOf(sourcePath).name)
    ensures Dashed(TrimSuffix(NameOf(sourcePath).name))
  {
    var stem := TrimSuffix(sourcePath);
    JoinNonEmpty(Words(stem));
    JoinDashed(Words(stem));
    DashedIsValid(Slug(stem));
    ExtensionOf(Slug(stem));
  }

  // ---------------------------------------------------------------- names name themselves

  /** A string of words and single dashes is its own slug. */
  lemma {:induction false} SlugOfDashed(s: string, i: nat)
    requires Dashed(s) && i <= |s|
    ensures Slug(s[..i]) == if i > 0 && s[i - 1] == '-' then s[..i - 1] else s[..i]
  {
    if i > 0 {
      SlugOfDashed(s, i - 1);
      SlugOneMore(s, i - 1);
      assert s[..i] == s[..i - 1] + [s[i - 1]];
      if i > 1 { assert s[..i - 1] == s[..i - 2] + [s[i - 2]]; }
    }
  }

  /** Naming a name gives the name. */
  lemma NamesAreFixed(sourcePath: string)
    requires NameOf(sourcePath).Ok?
    ensures NameOf(NameOf(sourcePath).name) == NameOf(sourcePath)
  {
    var name := NameOf(sourcePath).name;
    var slug := Slug(TrimSuffix(sourcePath));
    NamesAreValid(sourcePath);
    ExtensionOf(slug);
    SlugOfDashed(slug, |slug|);
    assert slug[..|slug|] == slug;
  }

  // ---------------------------------------------------------------- a write set

  datatype Validation =
    | Valid
    | BadFilename(name: string)
    | BadName(stem: string)
    | BadCharacter(stem: string)
    | BadEnds(stem: string)
    | DuplicateName(stem: string)

  predicate NameCharacters(stem: string) { forall i | 0 <= i < |stem| :: Alnum(stem[i]) || stem[i] == '-' }

  /** What is wrong with one file name, the first thing first. */
  function Judgement(name: string): (r: Validation)
    ensures r.Valid? <==> ValidName(name)
    ensures !r.DuplicateName?
  {
    var stem := TrimSuffix(name);
    if Base(name) != name || Ext(name) != EXTENSION then BadFilename(name)
    else if stem == "" || |stem| > MAX_ADDON_NAME then BadName(stem)
    else if !NameCharacters(stem) then BadCharacter(stem)
    else if stem[0] == '-' || stem[|stem| - 1] == '-' then BadEnds(stem)
    else Valid
  }

  method CheckName(name: string) returns (r: Validation)
    ensures r == Judgement(name)
  {
    if Base(name) != name || Ext(name) != EXTENSION { return BadFilename(name); }
    var stem := TrimSuffix(name);
    if stem == "" || |stem| > MAX_ADDON_NAME { return BadName(stem); }
    for i := 0 to |stem|
      invariant forall j | 0 <= j < i :: Alnum(stem[j]) || stem[j] == '-'
    {
      if !Alnum(stem[i]) && stem[i] != '-' { return BadCharacter(stem); }
    }
    if stem[0] == '-' || stem[|stem| - 1] == '-' { return BadEnds(stem); }
    return Valid;
  }

  predicate AllValid(names: seq<string>) {
    forall i {:trigger ValidName(names[i])} | 0 <= i < |names| :: ValidName(names[i])
  }

  /** The first `i` names leave nothing to object to, and `seen` are their stems. */
  ghost predicate ValidSoFar(names: seq<string>, i: nat, seen: set<string>) {
    && i <= |names| && AllValid(names[..i])
    && Distinct(Stems(names)[..i]) && seen == Members(Stems(names)[..i])
  }

  lemma OneMoreValid(names: seq<string>, i: nat, seen: set<string>)
    requires i < |names| && ValidSoFar(names, i, seen)
    ensures !ValidName(names[i]) ==> !AllValid(names)
    ensures TrimSuffix(names[i]) in seen ==> !Distinct(Stems(names))
    ensures ValidName(names[i]) && TrimSuffix(names[i]) !in seen ==> ValidSoFar(names, i + 1, seen + {TrimSuffix(names[i])})
  {
    DistinctOneMore(Stems(names), i);
    PrefixOfPrefix(names, i);
    if ValidName(names[i]) {
      var upTo := names[..i + 1];
      forall j | 0 <= j < |upTo| ensures ValidName(upTo[j]) {
        assert j < i ==> ValidName(names[..i][j]);
      }
    }
  }

  lemma AllLookedAt(names: seq<string>, seen: set<string>)
    requires ValidSoFar(names, |names|, seen)
    ensures AllValid(names) && Distinct(Stems(names))
  {
    assert names[..|names|] == names && Stems(names)[..|names|] == Stems(names);
  }

  /** The error `r` is that of file `i`, and the files before it are in order. */
  ghost predicate ErrorAt(names: seq<string>, i: nat, r: Validation) {
    && i < |names| && AllValid(names[..i]) && Distinct(Stems(names)[..i])
    && if ValidName(names[i]) then r == DuplicateName(Stems(names)[i]) && Stems(names)[i] in Stems(names)[..i]
       else r == Judgement(names[i])
  }

  lemma FirstErrorIs(names: seq<string>, i: nat, seen: set<string>)
    requires i < |names| && ValidSoFar(names, i, seen)
    ensures !ValidName(names[i]) ==> ErrorAt(names, i, Judgement(names[i]))
    ensures ValidName(names[i]) && TrimSuffix(names[i]) in seen ==> ErrorAt(names, i, DuplicateName(TrimSuffix(names[i])))
  {
    assert Stems(names)[i] == TrimSuffix(names[i]);
  }

  /** Accepts exactly the sets whose names are all valid and different; otherwise says
      what is wrong with the first file that is wrong. */
  method ValidateManifestFiles(names: seq<string>) returns (r: Validation)
    ensures r.Valid? <==> AllValid(names) && Distinct(Stems(names))
    ensures !r.Valid? ==> exists i :: ErrorAt(names, i, r)
  {
    var seen: set<string> := {};
    for i := 0 to |names|
      invariant ValidSoFar(names, i, seen)
    {
      OneMoreValid(names, i, seen);
      r := CheckName(names[i]);
      FirstErrorIs(names, i, seen);
      if !r.Valid? { return r; }
      var stem := TrimSuffix(names[i]);
      if stem in seen { return DuplicateName(stem); }
      seen := seen + {stem};
    }
    AllLookedAt(names, seen);
    r := Valid;
  }

  function Stems(names: seq<string>): (s: seq<string>)
    ensures |s| == |names| && forall i | 0 <= i < |s| :: s[i] == TrimSuffix(names[i])
  {
    seq(|names|, i requires 0 <= i < |names| => TrimSuffix(names[i]))
  }

  lemma {:induction false} AddOnOfStem(stem: string)
    requires '.' !in stem
    ensures AddOn(stem + EXTENSION) == stem
  {
    var s := stem + EXTENSION;
    if stem != "" {
      assert s[1..] == stem[1..] + EXTENSION;
      assert forall c | c in stem[1..] :: c in stem;
      AddOnOfStem(stem[1..]);
      assert stem == [stem[0]] + stem[1..];
    }
  }

  lemma {:induction false} ExtIsSuffix(p: string)
    ensures |Ext(p)| <= |p| && p[|p| - |Ext(p)|..] == Ext(p)
  {
    if p != "" && p[|p| - 1] != '/' && p[|p| - 1] != '.' {
      var q := p[..|p| - 1];
      ExtIsSuffix(q);
      if Ext(q) != "" {
        assert p[|p| - |Ext(p)|..] == q[|q| - |Ext(q)|..] + [p[|p| - 1]];
      }
    }
  }

  lemma ValidNameAddOn(name: string)
    requires ValidName(name)
    ensures AddOn(name) == TrimSuffix(name)
  {
    ExtIsSuffix(name);
    var stem := TrimSuffix(name);
    assert name == stem + EXTENSION;
    AddOnOfStem(stem);
  }

  /** In an accepted write set no two files claim the same AddOn. */
  lemma AddOnsAreDistinct(names: seq<string>, i: nat, j: nat)
    requires AllValid(names) && Distinct(Stems(names))
    requires i < j < |names|
    ensures AddOn(names[i]) != AddOn(names[j])
  {
    ValidNameAddOn(names[i]);
    ValidNameAddOn(names[j]);
    assert Stems(names)[i] != Stems(names)[j];
  }
}
