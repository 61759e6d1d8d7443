/** The stream splitter that relays a child process's output to the panel log line by line. */
module LogWriter {
  newtype byte = b: int | 0 <= b < 256

  type Bytes = seq<byte>

  const NEWLINE: byte := 10

  // ---------- splitting ----------

  predicate IsLine(s: Bytes) { forall i :: 0 <= i < |s| ==> s[i] != NEWLINE }

  /** Position of the first newline, or -1. */
  function FirstNewline(s: Bytes): (i: int)
    ensures -1 <= i < |s|
    ensures i < 0 ==> IsLine(s)
    ensures i >= 0 ==> s[i] == NEWLINE && IsLine(s[..i])
  {
    if s == [] then -1
    else if s[0] == NEWLINE then 0
    else
      var i := FirstNewline(s[1..]);
      assert i >= 0 ==> s[..i + 1] == [s[0]] + s[1..][..i];
      if i < 0 then -1 else i + 1
  }

  /** The completed lines of a stream. */
  function LinesOf(s: Bytes): seq<Bytes>
    decreases |s|
  {
    var i := FirstNewline(s);
    if i < 0 then [] else [s[..i]] + LinesOf(s[i + 1..])
  }

  /** What follows the last newline. */
  function RestOf(s: Bytes): Bytes
    decreases |s|
  {
    var i := FirstNewline(s);
    if i < 0 then s else RestOf(s[i + 1..])
  }

  /** The stream cut at its newlines; an unterminated last line counts if it is not empty. */
  function AllLines(s: Bytes): seq<Bytes> {
    LinesOf(s) + if RestOf(s) == [] then [] else [RestOf(s)]
  }

  function Terminated(ls: seq<Bytes>): Bytes {
    if ls == [] then [] else ls[0] + [NEWLINE] + Terminated(ls[1..])
  }

  lemma SplitStep(s: Bytes)
    ensures var i := FirstNewline(s);
            if i < 0 then LinesOf(s) == [] && RestOf(s) == s
            else LinesOf(s) == [s[..i]] + LinesOf(s[i + 1..]) && RestOf(s) == RestOf(s[i + 1..])
  {}

  lemma TerminatedStep(line: Bytes, ls: seq<Bytes>)
    ensures Terminated([line] + ls) == line + [NEWLINE] + Terminated(ls) && Terminated([]) == []
  {
    assert ([line] + ls)[1..] == ls;
  }

  /** Nothing is lost, duplicated or reordered. */
  lemma {:induction false} LinesRejoin(s: Bytes)
    ensures Terminated(LinesOf(s)) + RestOf(s) == s
    decreases |s|
  {
    hide FirstNewline, LinesOf, RestOf, Terminated;
    var i := FirstNewline(s);
    SplitStep(s);
    if i < 0 {
      TerminatedStep(s, []);
    } else {
      var tail := s[i + 1..];
      LinesRejoin(tail);
      TerminatedStep(s[..i], LinesOf(tail));
      assert s == s[..i] + [NEWLINE] + tail;
    }
  }

  /** No line hides a newline. */
  lemma {:induction false} LinesAreLines(s: Bytes)
    ensures IsLine(RestOf(s)) && forall i :: 0 <= i < |LinesOf(s)| ==> IsLine(LinesOf(s)[i])
    decreases |s|
  {
    var i := FirstNewline(s);
    if i >= 0 {
      LinesAreLines(s[i + 1..]);
    }
  }

  lemma {:induction false} FirstNewlineStays(s: Bytes, t: Bytes)
    requires FirstNewline(s) >= 0
    ensures FirstNewline(s + t) == FirstNewline(s)
  {
    if s[0] != NEWLINE {
      FirstNewlineStays(s[1..], t);
      assert (s + t)[1..] == s[1..] + t;
    }
  }

  /** Splitting a stream at once or in two portions is the same. */
  lemma {:induction false} SplitInPortions(s: Bytes, t: Bytes)
    ensures LinesOf(s + t) == LinesOf(s) + LinesOf(RestOf(s) + t)
    ensures RestOf(s + t) == RestOf(RestOf(s) + t)
    decreases |s|
  {
    hide FirstNewline, LinesOf, RestOf;
    var i := FirstNewline(s);
    SplitStep(s);
    SplitStep(s + t);
    if i >= 0 {
      FirstNewlineStays(s, t);
      assert (s + t)[i + 1..] == s[i + 1..] + t && (s + t)[..i] == s[..i];
      SplitInPortions(s[i + 1..], t);
    }
  }

  // ---------- what is relayed ----------

  /** The blank-stripping of a raw line, and the search for a quick-tunnel address in it. */
  datatype Filter = Filter(trim: Bytes -> Bytes, findUrl: Bytes -> Bytes)

  datatype Status = Status(log: seq<Bytes>, lastLine: Bytes, publicUrl: Bytes)

  /** What the relayed raw lines amount to: blank ones leave no trace, the others are logged trimmed, the last is
      remembered, and so is the last address found. */
  function StatusOf(raw: seq<Bytes>, f: Filter): Status {
    if raw == [] then Status([], [], [])
    else
      var before := StatusOf(raw[..|raw| - 1], f);
      var trimmed := f.trim(raw[|raw| - 1]);
      if trimmed == [] then before
      else Status(before.log + [trimmed], trimmed,
                  if f.findUrl(trimmed) != [] then f.findUrl(trimmed) else before.publicUrl)
  }

  /** The address shown is that of the last logged line in which one is found, if any. */
  ghost predicate ShowsLastUrl(log: seq<Bytes>, url: Bytes, f: Filter) {
    if url == [] then forall i :: 0 <= i < |log| ==> f.findUrl(log[i]) == []
    else exists i :: 0 <= i < |log| && f.findUrl(log[i]) == url
                     && forall j :: i < j < |log| ==> f.findUrl(log[j]) == []
  }

  lemma {:induction false} StatusTells(raw: seq<Bytes>, f: Filter)
    ensures var st := StatusOf(raw, f);
            && st.lastLine == (if st.log == [] then [] else st.log[|st.log| - 1])
            && ShowsLastUrl(st.log, st.publicUrl, f)
  {
    if raw != [] {
      var front := raw[..|raw| - 1];
      StatusTells(front, f);
      var before, st := StatusOf(front, f), StatusOf(raw, f);
      if st != before {
        var n := |before.log|;
        assert st.log[..n] == before.log;
        if f.findUrl(st.log[n]) != [] {
          assert f.findUrl(st.log[n]) == st.publicUrl;
        } else if before.publicUrl != [] {
          var i :| 0 <= i < n && f.findUrl(before.log[i]) == before.publicUrl
                   && forall j :: i < j < n ==> f.findUrl(before.log[j]) == [];
          assert f.findUrl(st.log[i]) == st.publicUrl;
        }
      }
    }
  }

  /** The log of two portions is the log of the first and then that of the second, and a single line is logged trimmed
      unless it is blank. */
  lemma {:induction false} LogAppends(a: seq<Bytes>, b: seq<Bytes>, f: Filter)
    ensures StatusOf(a + b, f).log == StatusOf(a, f).log + StatusOf(b, f).log
    ensures |a| == 1 ==> StatusOf(a, f).log == if f.trim(a[0]) == [] then [] else [f.trim(a[0])]
  {
    if b == [] {
      assert a + b == a;
    } else {
      assert (a + b)[..|a + b| - 1] == a + b[..|b| - 1];
      LogAppends(a, b[..|b| - 1], f);
    }
    assert |a| == 1 ==> a[..0] == [];
  }

  class Writer {
    var buf: Bytes
    var log: seq<Bytes>
    var lastLine: Bytes
    var publicUrl: Bytes
    const f: Filter
    ghost var raw: seq<Bytes>

    /** The visible status is that of the raw lines emitted so far. */
    ghost predicate Valid()
      reads this
    {
      Status(log, lastLine, publicUrl) == StatusOf(raw, f)
    }

    constructor (f: Filter)
      ensures Valid() && raw == [] && buf == [] && this.f == f
    {
      this.f := f;
      buf, log, lastLine, publicUrl, raw := [], [], [], [], [];
    }

    method EmitLocked(line: Bytes)
      requires Valid()
      modifies this
      ensures Valid() && buf == old(buf) && raw == old(raw) + [line]
    {
      raw := raw + [line];
      assert raw[..|raw| - 1] == old(raw);
      var trimmed := f.trim(line);
      if trimmed == [] {
        return;
      }
      lastLine := trimmed;
      var url := f.findUrl(trimmed);
      if url != [] {
        publicUrl := url;
      }
      log := log + [trimmed];
    }

    method Write(p: Bytes) returns (n: nat)
      requires Valid()
      modifies this
      ensures Valid() && n == |p|
      ensures raw == old(raw) + LinesOf(old(buf) + p) && buf == RestOf(old(buf) + p)
    {
      hide FirstNewline, LinesOf, RestOf, StatusOf;
      buf := buf + p;
      ghost var stream := buf;
      while FirstNewline(buf) >= 0
        invariant Valid()
        invariant raw + LinesOf(buf) == old(raw) + LinesOf(stream) && RestOf(buf) == RestOf(stream)
        decreases |buf|
      {
        var i := FirstNewline(buf);
        var line := buf[..i];
        SplitStep(buf);
        buf := buf[i + 1..];
        EmitLocked(line);
      }
      SplitStep(buf);
      n := |p|;
    }

    method Flush()
      requires Valid()
      modifies this
      ensures Valid() && buf == []
      ensures raw == old(raw) + if old(buf) == [] then [] else [old(buf)]
    {
      if buf != [] {
        var line := buf;
        buf := [];
        EmitLocked(line);
      }
    }
  }

  // ---------- any chunking ----------

  function Concat(chunks: seq<Bytes>): Bytes {
    if chunks == [] then [] else Concat(chunks[..|chunks| - 1]) + chunks[|chunks| - 1]
  }

  /** The writer after each of the chunks was written: its raw lines and its buffer, as Write leaves them. */
  function Written(chunks: seq<Bytes>): (seq<Bytes>, Bytes) {
    if chunks == [] then ([], [])
    else
      var (raw, buf) := Written(chunks[..|chunks| - 1]);
      (raw + LinesOf(buf + chunks[|chunks| - 1]), RestOf(buf + chunks[|chunks| - 1]))
  }

  lemma {:induction false} WrittenIsSplit(chunks: seq<Bytes>)
    ensures Written(chunks) == (LinesOf(Concat(chunks)), RestOf(Concat(chunks)))
  {
    if chunks != [] {
      WrittenIsSplit(chunks[..|chunks| - 1]);
      SplitInPortions(Concat(chunks[..|chunks| - 1]), chunks[|chunks| - 1]);
    }
  }

  /** However a stream is cut into writes, the lines emitted after the final flush are those of the whole stream. */
  method Relay(w: Writer, chunks: seq<Bytes>)
    requires w.Valid() && w.raw == [] && w.buf == []
    modifies w
    ensures w.Valid() && w.raw == AllLines(Concat(chunks)) && w.buf == []
  {
    assert chunks[..0] == [];
    for i := 0 to |chunks|
      invariant w.Valid() && (w.raw, w.buf) == Written(chunks[..i])
    {
      assert chunks[..i + 1][..i] == chunks[..i];
      var _ := w.Write(chunks[i]);
    }
    assert chunks[..|chunks|] == chunks;
    WrittenIsSplit(chunks);
    w.Flush();
  }

  lemma ChunkingIsIrrelevant(a: seq<Bytes>, b: seq<Bytes>, f: Filter)
    requires Concat(a) == Concat(b)
    ensures Written(a) == Written(b)
    ensures StatusOf(AllLines(Concat(a)), f) == StatusOf(AllLines(Concat(b)), f)
  {
    WrittenIsSplit(a);
    WrittenIsSplit(b);
  }
}
