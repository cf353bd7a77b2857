/** The registry's line in a node's /etc/hosts: one managed line, marked as such,
    rewritten without disturbing anyone else's. */
module HostsFile {
  import opened Slices
  import opened Text

  const MARKER := " # orkano-registry"

  predicate Marked(line: string) {
    |line| >= |MARKER| && line[|line| - |MARKER|..] == MARKER
  }

  function Managed(ip: string, host: string): string { ip + " " + host + MARKER }

  function Unmarked(lines: seq<string>): (r: seq<string>)
    ensures forall x | x in r :: x in lines && !Marked(x)
  {
    if lines == [] then [] else
      var init, last := lines[..|lines| - 1], lines[|lines| - 1];
      Unmarked(init) + if Marked(last) then [] else [last]
  }

  /** Without the newlines at the end. */
  function TrimNewlines(s: string): (t: string)
    ensures t <= s && (t != "" ==> t[|t| - 1] != '\n')
  {
    if s != "" && s[|s| - 1] == '\n' then TrimNewlines(s[..|s| - 1]) else s
  }

  function Body(current: string): string { TrimNewlines(Join(Unmarked(Split(current, '\n')), '\n')) }

  function Rendered(current: string, ip: string, host: string): string {
    Body(current) + "\n" + Managed(ip, host) + "\n"
  }

  method RenderHosts(current: string, ip: string, host: string) returns (r: string)
    ensures r == Rendered(current, ip, host)
  {
    var lines := Split(current, '\n');
    var kept: seq<string> := [];
    for i := 0 to |lines|
      invariant kept == Unmarked(lines[..i])
    {
      PrefixOfPrefix(lines, i);
      if Marked(lines[i]) { continue; }
      kept := kept + [lines[i]];
    }
    assert lines[..|lines|] == lines;
    r := TrimNewlines(Join(kept, '\n')) + "\n" + ip + " " + host + MARKER + "\n";
    ManagedText(Body(current), ip, host);
  }

  lemma ManagedText(body: string, ip: string, host: string)
    ensures body + "\n" + ip + " " + host + MARKER + "\n" == body + "\n" + Managed(ip, host) + "\n"
  {
    assert body + "\n" + ip + " " + host + MARKER == body + "\n" + Managed(ip, host);
  }

  // ---------------------------------------------------------------- lines and their text

  /** Without the blank lines at the end. */
  function StripBlank(lines: seq<string>): (r: seq<string>)
    ensures r <= lines && (r != [] ==> r[|r| - 1] != "")
  {
    if lines != [] && lines[|lines| - 1] == "" then StripBlank(lines[..|lines| - 1]) else lines
  }

  lemma {:induction false} NoNewlineAtEnd(s: string)
    requires s == "" || s[|s| - 1] != '\n'
    ensures TrimNewlines(s) == s && TrimNewlines(s + "\n") == s
  {
    assert (s + "\n")[..|s|] == s;
  }

  /** Trimming the text's newlines is stripping its blank lines. */
  lemma {:induction false} TrimIsStrip(lines: seq<string>)
    requires forall x | x in lines :: '\n' !in x
    ensures TrimNewlines(Join(lines, '\n')) == Join(StripBlank(lines), '\n')
  {
    if lines != [] {
      var init, last := lines[..|lines| - 1], lines[|lines| - 1];
      assert lines == init + [last] && last in lines;
      if init != [] { JoinSnoc(init, last, '\n'); }
      if last == "" {
        TrimIsStrip(init);
        if init != [] {
          var j := Join(init, '\n');
          assert Join(lines, '\n') == j + "\n";
          assert (j + "\n")[..|j|] == j;
        }
      } else {
        assert last[|last| - 1] in last;
        NoNewlineAtEnd(Join(lines, '\n'));
      }
    }
  }

  lemma {:induction false} UnmarkedAppend(a: seq<string>, b: seq<string>)
    ensures Unmarked(a + b) == Unmarked(a) + Unmarked(b)
  {
    if b == [] {
      assert a + b == a;
    } else {
      var init := b[..|b| - 1];
      AppendedPrefix(a, b);
      UnmarkedAppend(a, init);
    }
  }

  lemma {:induction false} UnmarkedAll(lines: seq<string>)
    requires forall x | x in lines :: !Marked(x)
    ensures Unmarked(lines) == lines
  {
    if lines != [] {
      SplitEnd(lines);
      UnmarkedAll(lines[..|lines| - 1]);
    }
  }

  /** The lines of the body: what was kept, without blank lines at the end. */
  function BodyLines(current: string): seq<string> { StripBlank(Unmarked(Split(current, '\n'))) }

  lemma {:induction false} BodyIsItsLines(current: string)
    ensures Body(current) == Join(BodyLines(current), '\n')
    ensures Split(Body(current), '\n') == if BodyLines(current) == [] then [""] else BodyLines(current)
  {
    var kept := Unmarked(Split(current, '\n'));
    forall x | x in kept ensures '\n' !in x { assert x in Split(current, '\n'); }
    TrimIsStrip(kept);
    if BodyLines(current) != [] {
      forall x | x in BodyLines(current) ensures '\n' !in x { assert x in kept; }
      SplitJoin(BodyLines(current), '\n');
    }
  }

  lemma {:induction false} BodyLinesUnmarked(current: string)
    ensures Unmarked(Split(Body(current), '\n')) == Split(Body(current), '\n')
    ensures !Marked("")
  {
    BodyIsItsLines(current);
    var kept := Unmarked(Split(current, '\n'));
    forall x | x in Split(Body(current), '\n') ensures !Marked(x) {
      assert x == "" || x in kept;
    }
    UnmarkedAll(Split(Body(current), '\n'));
  }

  lemma {:induction false} ManagedIsMarked(ip: string, host: string)
    ensures Marked(Managed(ip, host))
  {
  }

  /** The lines of a rendering: the body, the managed line, and the end of the text. */
  lemma {:induction false} RenderedLines(current: string, ip: string, host: string)
    requires '\n' !in ip && '\n' !in host
    ensures Split(Rendered(current, ip, host), '\n') == Split(Body(current), '\n') + [Managed(ip, host), ""]
  {
    var b, m := Split(Body(current), '\n'), Managed(ip, host);
    var parts := b + [m, ""];
    JoinSplit(Body(current), '\n');
    assert parts == (b + [m]) + [""];
    JoinSnoc(b + [m], "", '\n');
    JoinSnoc(b, m, '\n');
    assert '\n' !in m;
    assert Join(parts, '\n') == Body(current) + "\n" + m + "\n" + "";
    assert Join(parts, '\n') == Rendered(current, ip, host);
    SplitJoin(parts, '\n');
  }

  // ---------------------------------------------------------------- what rendering keeps and changes

  /** Every unmarked line is kept, in order, up to blank lines at the end. */
  lemma {:induction false} UnmarkedLinesKept(current: string, ip: string, host: string)
    requires '\n' !in ip && '\n' !in host
    ensures Unmarked(Split(Rendered(current, ip, host), '\n')) == Split(Body(current), '\n') + [""]
    ensures StripBlank(Unmarked(Split(Rendered(current, ip, host), '\n'))) == StripBlank(Unmarked(Split(current, '\n')))
  {
    var b, m := Split(Body(current), '\n'), Managed(ip, host);
    RenderedLines(current, ip, host);
    BodyLinesUnmarked(current);
    ManagedIsMarked(ip, host);
    UnmarkedAppend(b, [m, ""]);
    UnmarkedManaged(m);
    BodyIsItsLines(current);
    StripBody(b, BodyLines(current));
  }

  /** How many blank lines there are at the end. */
  function TrailingBlank(lines: seq<string>): (n: nat)
    ensures n <= |lines|
    ensures n == |lines| <==> AllBlank(lines)
  {
    if lines != [] && lines[|lines| - 1] == "" then 1 + TrailingBlank(lines[..|lines| - 1]) else 0
  }

  predicate AllBlank(lines: seq<string>) { forall i | 0 <= i < |lines| :: lines[i] == "" }

  function Blanks(n: nat): (b: seq<string>)
    ensures |b| == n && forall i | 0 <= i < n :: b[i] == ""
  {
    seq(n, _ => "")
  }

  lemma {:induction false} StripTrailing(lines: seq<string>)
    ensures lines == StripBlank(lines) + Blanks(TrailingBlank(lines))
    ensures StripBlank(lines) == [] <==> TrailingBlank(lines) == |lines|
  {
    if lines != [] && lines[|lines| - 1] == "" {
      var init := lines[..|lines| - 1];
      StripTrailing(init);
      SplitEnd(lines);
      assert Blanks(TrailingBlank(init)) + [""] == Blanks(TrailingBlank(lines));
      assert StripBlank(init) + Blanks(TrailingBlank(init)) + [""] == StripBlank(init) + (Blanks(TrailingBlank(init)) + [""]);
    }
  }

  /** How many blank lines a rendering leaves after its unmarked lines: the end of the
      text, and a line of its own when there is no other. */
  function BlanksLeft(lines: seq<string>): nat { if AllBlank(lines) then 2 else 1 }

  /** The unmarked lines are kept as they are exactly when they end in one blank line,
      or are two of them; none is lost exactly when they end in no more than that. */
  lemma {:induction false} LinesKeptIff(current: string, ip: string, host: string)
    requires '\n' !in ip && '\n' !in host
    ensures var before, after := Unmarked(Split(current, '\n')), Unmarked(Split(Rendered(current, ip, host), '\n'));
            && (after == before <==> TrailingBlank(before) == BlanksLeft(before))
            && (before <= after <==> TrailingBlank(before) <= BlanksLeft(before))
  {
    var before := Unmarked(Split(current, '\n'));
    UnmarkedAfter(current, ip, host);
    StripTrailing(before);
    SameStem(StripBlank(before), TrailingBlank(before), BlanksLeft(before));
  }

  lemma {:induction false} UnmarkedAfter(current: string, ip: string, host: string)
    requires '\n' !in ip && '\n' !in host
    ensures var before := Unmarked(Split(current, '\n'));
            Unmarked(Split(Rendered(current, ip, host), '\n')) == StripBlank(before) + Blanks(BlanksLeft(before))
  {
    var before := Unmarked(Split(current, '\n'));
    StripTrailing(before);
    UnmarkedLinesKept(current, ip, host);
    BodyIsItsLines(current);
    BodyWithEnd(StripBlank(before));
  }

  lemma BodyWithEnd(lines: seq<string>)
    ensures (if lines == [] then [""] else lines) + [""] == lines + Blanks(if lines == [] then 2 else 1)
  {
  }

  lemma SameStem(stem: seq<string>, n: nat, m: nat)
    ensures stem + Blanks(n) == stem + Blanks(m) <==> n == m
    ensures stem + Blanks(n) <= stem + Blanks(m) <==> n <= m
  {
    assert |stem + Blanks(n)| == |stem| + n && |stem + Blanks(m)| == |stem| + m;
    if n <= m { assert (stem + Blanks(m))[..|stem| + n] == stem + Blanks(n); }
  }

  /** So a blank line can be lost: of the two at the end of this text, one is. */
  lemma {:induction false} LineLost(ip: string, host: string)
    requires '\n' !in ip && '\n' !in host
    ensures Unmarked(Split("a\n\n", '\n')) == ["a", "", ""]
    ensures !(["a", "", ""] <= Unmarked(Split(Rendered("a\n\n", ip, host), '\n')))
  {
    var lines := ["a", "", ""];
    assert Join(lines[1..][1..], '\n') == "" && Join(lines[1..], '\n') == "\n" && Join(lines, '\n') == "a\n\n";
    SplitJoin(lines, '\n');
    UnmarkedAll(lines);
    assert lines[..2] == ["a", ""] && lines[..2][..1] == ["a"];
    assert TrailingBlank(["a"]) == 0 && TrailingBlank(["a", ""]) == 1 && TrailingBlank(lines) == 2;
    assert lines[0] != "" && BlanksLeft(lines) == 1;
    LinesKeptIff("a\n\n", ip, host);
  }

  lemma {:induction false} UnmarkedManaged(m: string)
    requires Marked(m)
    ensures Unmarked([m, ""]) == [""]
  {
    assert [m, ""][..1] == [m] && [m][..0] == [];
    assert Unmarked([m]) == [];
  }

  lemma {:induction false} StripBody(b: seq<string>, lines: seq<string>)
    requires b == (if lines == [] then [""] else lines) && (lines != [] ==> lines[|lines| - 1] != "")
    ensures StripBlank(b + [""]) == lines
  {
    assert (b + [""])[..|b|] == b;
    StripOnce(lines);
  }

  lemma {:induction false} StripOnce(lines: seq<string>)
    requires lines != [] ==> lines[|lines| - 1] != ""
    ensures StripBlank(lines) == lines
    ensures StripBlank([""]) == []
  {
  }

  function MarkedCount(lines: seq<string>): nat {
    if lines == [] then 0 else MarkedCount(lines[..|lines| - 1]) + if Marked(lines[|lines| - 1]) then 1 else 0
  }

  lemma {:induction false} MarkedCountNone(lines: seq<string>)
    requires Unmarked(lines) == lines
    ensures MarkedCount(lines) == 0
  {
    if lines != [] {
      var init := lines[..|lines| - 1];
      UnmarkedShrinks(init);
      assert !Marked(lines[|lines| - 1]);
      assert Unmarked(lines)[..|init|] == init;
      MarkedCountNone(init);
    }
  }

  lemma {:induction false} UnmarkedShrinks(lines: seq<string>)
    ensures |Unmarked(lines)| <= |lines|
  {
    if lines != [] { UnmarkedShrinks(lines[..|lines| - 1]); }
  }

  /** Exactly one line is marked, and it is the mapping asked for. */
  lemma {:induction false} OneManagedLine(current: string, ip: string, host: string)
    requires '\n' !in ip && '\n' !in host
    ensures MarkedCount(Split(Rendered(current, ip, host), '\n')) == 1
    ensures var lines := Split(Rendered(current, ip, host), '\n'); |lines| >= 2 && lines[|lines| - 2] == Managed(ip, host)
  {
    var b, m := Split(Body(current), '\n'), Managed(ip, host);
    RenderedLines(current, ip, host);
    BodyLinesUnmarked(current);
    ManagedIsMarked(ip, host);
    MarkedCountNone(b);
    CountManaged(b, m);
  }

  lemma {:induction false} CountManaged(b: seq<string>, m: string)
    requires MarkedCount(b) == 0 && Marked(m)
    ensures MarkedCount(b + [m, ""]) == 1
  {
    var lines := b + [m, ""];
    assert lines[..|lines| - 1] == b + [m] && (b + [m])[..|b|] == b;
    assert !Marked("");
  }

  /** Rendering over a rendering is rendering afresh: only the last mapping counts. */
  lemma {:induction false} RenderingReplaces(current: string, ip: string, host: string, ip': string, host': string)
    requires '\n' !in ip && '\n' !in host
    ensures Rendered(Rendered(current, ip, host), ip', host') == Rendered(current, ip', host')
  {
    var b := Split(Body(current), '\n');
    UnmarkedLinesKept(current, ip, host);
    JoinSnoc(b, "", '\n');
    JoinSplit(Body(current), '\n');
    assert Join(b + [""], '\n') == Body(current) + "\n";
    NoNewlineAtEnd(Body(current));
  }

  /** In particular rendering twice is rendering once, so a second run writes nothing. */
  lemma {:induction false} RenderingIdempotent(current: string, ip: string, host: string)
    requires '\n' !in ip && '\n' !in host
    ensures Rendered(Rendered(current, ip, host), ip, host) == Rendered(current, ip, host)
  {
    RenderingReplaces(current, ip, host, ip, host);
  }
}
