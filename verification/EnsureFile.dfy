/** Converging one file on a node: read it, and when it differs write the new
    content beside it, in one command or in chunks, and rename it into place. */
module EnsureFile {
  import opened Wrappers
  import opened Base64

  type Bytes = seq<byte>
  type Files = map<string, Bytes>

  const CHUNK_BASE64: nat := 48 * 1024

  /** How running a command can end. A command that is cut off may have done part
      of its work, and one that is reported failed may have done all of it. */
  datatype Fault =
    | Fine
    | NotRun
    | CutOff(left: Bytes)
    | RanButFailed

  /** How the n-th command of a run ends; the run stops at the first that is not fine. */
  type Faults = nat -> Fault

  datatype Result = Ok(changed: bool) | Stopped

  function At(files: Files, p: string): Option<Bytes> {
    if p in files then Some(files[p]) else None
  }

  function Tmp(p: string): (t: string)
    ensures t != p
  {
    assert |p + ".tmp"| > |p|;
    p + ".tmp"
  }

  /** Nothing but the named files differs. */
  ghost predicate SameOutside(a: Files, b: Files, names: set<string>) {
    forall q | q !in names :: At(a, q) == At(b, q)
  }

  // ---------------------------------------------------------------- pieces of an encoding

  /** How many bytes the first `i` symbols of an encoding of `n` bytes stand for. */
  function BytesBefore(i: nat, n: nat): nat {
    if 3 * (i / 4) <= n then 3 * (i / 4) else n
  }

  lemma BytesBeforeTwice(i: nat, j: nat, n: nat)
    requires i <= j
    ensures BytesBefore(i, n) <= BytesBefore(j, n) <= n
    ensures BytesBefore(i, BytesBefore(j, n)) == BytesBefore(i, n)
  {
    assert i / 4 <= j / 4;
  }

  lemma CutAt(content: Bytes, j: nat)
    requires j % 4 == 0 && j <= |Encode(content)|
    ensures Encode(content)[..j] == Encode(content[..BytesBefore(j, |content|)])
    ensures Encode(content)[j..] == Encode(content[BytesBefore(j, |content|)..])
  {
    CutEncoding(content, j / 4);
  }

  lemma PieceIsEncoding(content: Bytes, i: nat, j: nat)
    requires i % 4 == 0 && j % 4 == 0 && i <= j <= |Encode(content)|
    ensures BytesBefore(i, |content|) <= BytesBefore(j, |content|) <= |content|
    ensures Encode(content)[i..j] == Encode(content[BytesBefore(i, |content|)..BytesBefore(j, |content|)])
  {
    var m, n := BytesBefore(i, |content|), BytesBefore(j, |content|);
    BytesBeforeTwice(i, j, |content|);
    assert Encode(content)[..j][i..] == Encode(content)[i..j];
    assert content[..n][m..] == content[m..n];
    CutAt(content, j);
    CutAt(content[..n], i);
  }

  /** A piece of an encoding cut at multiples of four decodes on its own, to the
      bytes it stands for. */
  lemma PieceDecodes(content: Bytes, i: nat, j: nat)
    requires i % 4 == 0 && j % 4 == 0 && i <= j <= |Encode(content)|
    ensures BytesBefore(i, |content|) <= BytesBefore(j, |content|) <= |content|
    ensures Decode(Encode(content)[i..j]) == Some(content[BytesBefore(i, |content|)..BytesBefore(j, |content|)])
  {
    PieceIsEncoding(content, i, j);
    RoundTrip(content[BytesBefore(i, |content|)..BytesBefore(j, |content|)]);
  }

  lemma WholeEncoding(content: Bytes)
    ensures |Encode(content)| % 4 == 0 && BytesBefore(|Encode(content)|, |content|) == |content|
  {
    WholeCount(|content|);
  }

  lemma WholeCount(n: nat)
    ensures 4 * ((n + 2) / 3) % 4 == 0 && BytesBefore(4 * ((n + 2) / 3), n) == n
  {
  }

  lemma AppendedPiece(content: Bytes, m: nat, n: nat)
    requires m <= n <= |content|
    ensures content[..m] + content[m..n] == content[..n]
    ensures m == 0 ==> [] + content[m..n] == content[..n]
  {
  }

  /** Chunks end at multiples of four symbols. */
  lemma ChunkEnds(i: nat, n: nat)
    requires i % 4 == 0 && n % 4 == 0
    ensures (i + CHUNK_BASE64) % 4 == 0 && Least(i + CHUNK_BASE64, n) % 4 == 0
  {
  }

  // ---------------------------------------------------------------- the node

  class Node {
    var files: Files
    var commands: nat
    var writes: nat

    constructor (files: Files)
      ensures this.files == files && commands == 0 && writes == 0
    {
      this.files, commands, writes := files, 0, 0;
    }

    /** `printf '<enc>' | base64 -d | tee [-a] <tmp>` */
    method Tee(faults: Faults, tmp: string, enc: string, append: bool) returns (ok: bool)
      requires Decode(enc).Some?
      modifies this
      ensures SameOutside(files, old(files), {tmp})
      ensures ok ==> tmp in files
      ensures ok ==> files[tmp] == (if append && tmp in old(files) then old(files)[tmp] else []) + Decode(enc).value
      ensures ok <==> faults(old(commands)).Fine?
      ensures faults(old(commands)).NotRun? ==> files == old(files)
      ensures faults(old(commands)).CutOff? ==> files == old(files)[tmp := faults(old(commands)).left]
      ensures faults(old(commands)).RanButFailed? && !append ==> files == old(files)[tmp := Decode(enc).value]
    {
      var before := if append && tmp in files then files[tmp] else [];
      assert [] + Decode(enc).value == Decode(enc).value;
      var fault := faults(commands);
      commands, writes := commands + 1, writes + 1;
      match fault {
        case NotRun =>
        case CutOff(left) => files := files[tmp := left];
        case _ => files := files[tmp := before + Decode(enc).value];
      }
      ok := fault.Fine?;
    }

    /** `mv <tmp> <p>`: the rename happens or it does not. */
    method Move(faults: Faults, tmp: string, p: string) returns (ok: bool)
      requires tmp in files && tmp != p
      modifies this
      ensures files == old(files) || files == old(files)[p := old(files)[tmp]] - {tmp}
      ensures ok ==> files == old(files)[p := old(files)[tmp]] - {tmp}
    {
      var fault := faults(commands);
      commands, writes := commands + 1, writes + 1;
      if !fault.NotRun? && !fault.CutOff? {
        files := files[p := files[tmp]] - {tmp};
      }
      ok := fault.Fine?;
    }

    method WriteInline(faults: Faults, p: string, content: Bytes) returns (ok: bool)
      modifies this
      ensures WriteOutcome(old(files), files, p, content, ok)
    {
      RoundTrip(content);
      ok := Tee(faults, Tmp(p), Encode(content), false);
      if !ok { return; }
      assert [] + content == content;
      ghost var mid := files;
      ok := Move(faults, Tmp(p), p);
      Renamed(old(files), mid, files, p, content);
    }

    /** One chunk: the symbols from `i` to `end`, appended unless they are the first. */
    method TeeChunk(faults: Faults, tmp: string, content: Bytes, enc: string, i: nat, end: nat, first: bool) returns (ok: bool)
      requires enc == Encode(content) && i % 4 == 0 && end % 4 == 0 && i < end <= |enc|
      requires first <==> i == 0
      requires !first ==> At(files, tmp) == Some(content[..BytesBefore(i, |content|)])
      modifies this
      ensures SameOutside(files, old(files), {tmp})
      ensures BytesBefore(end, |content|) <= |content|
      ensures ok ==> At(files, tmp) == Some(content[..BytesBefore(end, |content|)])
    {
      PieceDecodes(content, i, end);
      ghost var m, n := BytesBefore(i, |content|), BytesBefore(end, |content|);
      AppendedPiece(content, m, n);
      ok := Tee(faults, tmp, enc[i..end], !first);
    }

    method TeeChunks(faults: Faults, tmp: string, content: Bytes) returns (ok: bool)
      requires content != []
      modifies this
      ensures SameOutside(files, old(files), {tmp})
      ensures ok ==> At(files, tmp) == Some(content)
    {
      var enc := Encode(content);
      WholeEncoding(content);
      var first, i := true, 0;
      ok := true;
      while i < |enc|
        invariant 0 <= i && i % 4 == 0 && ok
        invariant first <==> i == 0
        invariant SameOutside(files, old(files), {tmp})
        invariant !first ==> At(files, tmp) == Some(content[..BytesBefore(Least(i, |enc|), |content|)])
      {
        ChunkEnds(i, |enc|);
        ok := TeeChunk(faults, tmp, content, enc, i, Least(i + CHUNK_BASE64, |enc|), first);
        if !ok { return; }
        first := false;
        i := i + CHUNK_BASE64;
      }
      assert content[..|content|] == content;
    }

    method WriteChunked(faults: Faults, p: string, content: Bytes) returns (ok: bool)
      requires content != []
      modifies this
      ensures WriteOutcome(old(files), files, p, content, ok)
    {
      ok := TeeChunks(faults, Tmp(p), content);
      if !ok { return; }
      ghost var mid := files;
      ok := Move(faults, Tmp(p), p);
      Renamed(old(files), mid, files, p, content);
    }

    /** What /etc/hosts gets instead: read it, and write what `render` makes of it
        straight over it. When the write is cut off, what is left is in place. */
    method EnsureInPlace(faults: Faults, p: string, render: Bytes -> Bytes) returns (r: Result)
      modifies this
      ensures SameOutside(files, old(files), {p})
      ensures r.Ok? ==> p in old(files) && At(files, p) == Some(render(old(files)[p]))
      ensures r == Ok(false) ==> files == old(files) && writes == old(writes)
      ensures p in old(files) && render(old(files)[p]) == old(files)[p] && faults(old(commands)).Fine? ==> r == Ok(false)
      ensures p !in old(files) ==> r.Stopped? && files == old(files)
      ensures p in old(files) ==>
        (p in files && files[p] in {old(files)[p], render(old(files)[p])} <==>
         !TornBy(old(files)[p], render(old(files)[p]), faults(old(commands)), faults(old(commands) + 1)))
    {
      var fault := faults(commands);
      commands := commands + 1;
      if !fault.Fine? || p !in files { return Stopped; }
      var desired := render(files[p]);
      if files[p] == desired { return Ok(false); }
      RoundTrip(desired);
      assert [] + desired == desired;
      var ok := Tee(faults, p, Encode(desired), false);
      return if ok then Ok(true) else Stopped;
    }

    /** Write `content` to `p` unless it is there already. Wherever the run stops,
        `p` holds what it held before or all of `content`, never anything else; and
        a run that finds `content` in place writes nothing. */
    method Ensure(faults: Faults, p: string, content: Bytes) returns (r: Result)
      modifies this
      ensures At(files, p) == At(old(files), p) || At(files, p) == Some(content)
      ensures SameOutside(files, old(files), {p, Tmp(p)})
      ensures r.Ok? ==> At(files, p) == Some(content)
      ensures r == Ok(false) ==> files == old(files) && writes == old(writes)
      ensures At(old(files), p) == Some(content) && faults(old(commands)).Fine? ==> r == Ok(false)
    {
      var fault := faults(commands);
      commands := commands + 1;
      if fault.NotRun? || fault.CutOff? {
        return Stopped;
      }
      // A nonzero exit (the file is absent, or cannot be read) means: write it.
      if fault.Fine? && p in files && files[p] == content {
        return Ok(false);
      }
      var ok;
      if |Encode(content)| <= MAX_INLINE_BASE64 {
        ok := WriteInline(faults, p, content);
      } else {
        ok := WriteChunked(faults, p, content);
      }
      if !ok { return Stopped; }
      // chmod changes no content
      fault := faults(commands);
      commands, writes := commands + 1, writes + 1;
      if !fault.Fine? { return Stopped; }
      return Ok(true);
    }

  }

  /** What a write leaves behind, whether it went through or not. */
  /** The file was read and differs, and its write was cut off with neither the one
      content nor the other in place. */
  predicate TornBy(before: Bytes, desired: Bytes, reading: Fault, writing: Fault) {
    reading.Fine? && desired != before && writing.CutOff? && writing.left != before && writing.left != desired
  }

  ghost predicate WriteOutcome(before: Files, after: Files, p: string, content: Bytes, ok: bool) {
    && (At(after, p) == At(before, p) || At(after, p) == Some(content))
    && (ok ==> At(after, p) == Some(content))
    && SameOutside(after, before, {p, Tmp(p)})
  }

  /** Renaming the finished temporary file puts `content`, and only that, in place. */
  lemma Renamed(before: Files, mid: Files, after: Files, p: string, content: Bytes)
    requires SameOutside(mid, before, {Tmp(p)}) && At(mid, Tmp(p)) == Some(content)
    requires after == mid || after == mid[p := mid[Tmp(p)]] - {Tmp(p)}
    ensures WriteOutcome(before, after, p, content, after == mid[p := mid[Tmp(p)]] - {Tmp(p)})
  {
    assert At(mid, p) == At(before, p);
    forall q | q !in {p, Tmp(p)} ensures At(after, q) == At(before, q) {
      assert At(mid, q) == At(before, q);
    }
  }
}
