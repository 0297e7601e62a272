/**
  Task output: the buffer of taskWriter (internal/runner/writer.go) in front of
  the capped column written by AppendTaskOutput and RequeueTask
  (internal/store/background_tasks.go).

  Text is a sequence of bytes. The three truncation notices are the UTF-8 bytes
  of the source's Chinese notices; the proofs use only their lengths.
*/
module TaskOutput {
  newtype Byte = x: int | 0 <= x < 256

  type Bytes = seq<Byte>

  const CAP: nat := 0x10_0000

  /** Put in front of a buffer that was cut. */
  const BUF_MARK: Bytes :=
    [46, 46, 46, 232, 190, 147, 229, 135, 186, 232, 191, 135, 233, 149, 191, 239, 188, 140, 228, 187, 133, 228, 191,
     157, 231, 149, 153, 229, 176, 190, 233, 131, 168, 46, 46, 46, 10]

  /** Put in front of a chunk that alone reaches the cap. */
  const CHUNK_MARK: Bytes :=
    [10, 91, 232, 190, 147, 229, 135, 186, 230, 136, 170, 230, 150, 173, 239, 188, 140, 228, 187, 133, 228, 191, 157,
     231, 149, 153, 229, 176, 190, 233, 131, 168, 93, 10]

  /** Put in front of a column that would exceed the cap. */
  const FULL_MARK: Bytes :=
    [10, 91, 232, 190, 147, 229, 135, 186, 232, 182, 133, 233, 153, 144, 230, 136, 170, 230, 150, 173, 239, 188, 140,
     228, 187, 133, 228, 191, 157, 231, 149, 153, 229, 176, 190, 233, 131, 168, 93, 10]

  function Last(s: Bytes, n: nat): (r: Bytes)
    requires n <= |s|
  {
    s[|s| - n..]
  }

  predicate IsSuffix(q: Bytes, s: Bytes) {
    |q| <= |s| && q == s[|s| - |q|..]
  }

  lemma SuffixFacts(q: Bytes, s: Bytes, more: Bytes, n: nat)
    requires IsSuffix(q, s)
    ensures IsSuffix(q + more, s + more)
    ensures n <= |q| ==> IsSuffix(Last(q, n), s) && Last(q, n) == Last(s, n)
  {
    assert (s + more)[|s| - |q|..] == q + more;
  }

  lemma TailOfConcat(a: Bytes, b: Bytes, n: nat)
    requires n <= |b|
    ensures Last(a + b, n) == Last(b, n)
  {
  }

  lemma LastOfLast(s: Bytes, m: nat, n: nat)
    requires n <= m <= |s|
    ensures Last(Last(s, m), n) == Last(s, n)
  {
  }

  // ---- the column ----

  function CapChunk(chunk: Bytes): Bytes {
    if |chunk| >= CAP then CHUNK_MARK + chunk[|chunk| - CAP + 64..] else chunk
  }

  function CapColumn(merged: Bytes): Bytes {
    if |merged| > CAP then FULL_MARK + merged[|merged| - CAP + 128..] else merged
  }

  function Appended(cur: Bytes, chunk: Bytes): Bytes {
    CapColumn(cur + CapChunk(chunk))
  }

  /**
    What the column shows of a stream: all of it, or a short beginning, one
    notice and at least the last CAP-128 bytes.
  */
  ghost predicate Shows(out: Bytes, stream: Bytes) {
    out == stream || exists p, m, q :: Cut(out, stream, p, m, q)
  }

  predicate Cut(out: Bytes, stream: Bytes, p: Bytes, m: Bytes, q: Bytes) {
    && out == p + m + q
    && |p| <= 30 && p <= stream
    && (m == CHUNK_MARK || m == FULL_MARK)
    && IsSuffix(q, stream) && |q| >= CAP - 128
  }

  lemma AppendFits(cur: Bytes, chunk: Bytes)
    ensures |Appended(cur, chunk)| <= CAP
    ensures |cur| + |chunk| < CAP ==> Appended(cur, chunk) == cur + chunk
  {
  }

  /** A merged column over the cap is cut to the notice and the stream's last CAP-128 bytes. */
  lemma CutColumn(merged: Bytes, head: nat, q: Bytes, stream: Bytes)
    requires |merged| > CAP && head <= 128 && head <= |merged| && merged[head..] == q && IsSuffix(q, stream)
    ensures Shows(CapColumn(merged), stream)
  {
    var kept := merged[|merged| - CAP + 128..];
    assert kept == Last(q, CAP - 128);
    SuffixFacts(q, stream, [], CAP - 128);
    assert Cut(CapColumn(merged), stream, [], FULL_MARK, kept);
  }

  lemma AppendSmall(cur: Bytes, stream: Bytes, chunk: Bytes)
    requires Shows(cur, stream) && |chunk| < CAP
    ensures Shows(Appended(cur, chunk), stream + chunk)
  {
    var merged := cur + chunk;
    if cur == stream {
      if |merged| > CAP { CutColumn(merged, 0, merged, merged); }
    } else {
      var p, m, q :| Cut(cur, stream, p, m, q);
      SuffixFacts(q, stream, chunk, 0);
      assert merged == p + m + (q + chunk);
      if |merged| > CAP {
        CutColumn(merged, |p| + |m|, q + chunk, stream + chunk);
      } else {
        assert Cut(merged, stream + chunk, p, m, q + chunk);
      }
    }
  }

  lemma CutIsLong(out: Bytes, stream: Bytes)
    requires Shows(out, stream)
    ensures out == stream || |out| >= CAP - 128
  {
    if out != stream {
      var p, m, q :| Cut(out, stream, p, m, q);
    }
  }

  /** What stays of a full column is inside the chunk: the notice in front of it goes too. */
  lemma CutChunk(before: Bytes, kept: Bytes, stream: Bytes)
    requires |kept| == CAP - 64 && |before| > 64 && IsSuffix(kept, stream)
    ensures Shows(CapColumn(before + kept), stream)
  {
    TailOfConcat(before, kept, CAP - 128);
    SuffixFacts(kept, stream, [], CAP - 128);
    assert Cut(CapColumn(before + kept), stream, [], FULL_MARK, Last(before + kept, CAP - 128));
  }

  lemma AppendLarge(cur: Bytes, stream: Bytes, chunk: Bytes)
    requires Shows(cur, stream) && |chunk| >= CAP
    ensures Shows(Appended(cur, chunk), stream + chunk)
  {
    var kept := Last(chunk, CAP - 64);
    var before := cur + CHUNK_MARK;
    CapChunkOfLong(chunk);
    assert cur + CapChunk(chunk) == before + kept;
    assert IsSuffix(kept, stream + chunk);
    if |before| > 64 {
      CutChunk(before, kept, stream + chunk);
    } else {
      CutIsLong(cur, stream);
      assert Cut(before + kept, stream + chunk, cur, CHUNK_MARK, kept);
    }
  }

  lemma AppendShows(cur: Bytes, stream: Bytes, chunk: Bytes)
    requires Shows(cur, stream)
    ensures Shows(Appended(cur, chunk), stream + chunk)
  {
    if |chunk| < CAP { AppendSmall(cur, stream, chunk); } else { AppendLarge(cur, stream, chunk); }
  }

  function Min(a: nat, b: nat): nat { if a < b then a else b }

  /** Whatever a column shows, it ends with the stream's last CAP-128 bytes, or with all of it. */
  lemma ShowsTail(out: Bytes, stream: Bytes)
    requires Shows(out, stream)
    ensures |out| >= Min(|stream|, CAP - 128)
    ensures Last(out, Min(|stream|, CAP - 128)) == Last(stream, Min(|stream|, CAP - 128))
  {
    if out != stream {
      var p, m, q :| Cut(out, stream, p, m, q);
      SuffixFacts(q, stream, [], CAP - 128);
      assert Last(out, CAP - 128) == Last(q, CAP - 128);
    }
  }

  datatype Write = Append(chunk: Bytes) | Note(text: Bytes)

  /** The column after a task's appends and requeue notes; notes are concatenated without a cap. */
  function Column(ws: seq<Write>): Bytes {
    if ws == [] then []
    else
      var before := Column(ws[..|ws| - 1]);
      match ws[|ws| - 1]
      case Append(chunk) => Appended(before, chunk)
      case Note(text) => before + text
  }

  function Stream(ws: seq<Write>): Bytes {
    if ws == [] then []
    else
      var before := Stream(ws[..|ws| - 1]);
      match ws[|ws| - 1]
      case Append(chunk) => before + chunk
      case Note(text) => before + text
  }

  lemma NoteShows(cur: Bytes, stream: Bytes, text: Bytes)
    requires Shows(cur, stream)
    ensures Shows(cur + text, stream + text)
  {
    if cur != stream {
      var p, m, q :| Cut(cur, stream, p, m, q);
      SuffixFacts(q, stream, text, 0);
      assert cur + text == p + m + (q + text);
      assert Cut(cur + text, stream + text, p, m, q + text);
    }
  }

  lemma {:induction false} ColumnShows(ws: seq<Write>)
    ensures Shows(Column(ws), Stream(ws))
    ensures |Stream(ws)| < CAP ==> Column(ws) == Stream(ws)
  {
    if ws != [] {
      var init := ws[..|ws| - 1];
      ColumnShows(init);
      match ws[|ws| - 1] {
        case Append(chunk) =>
          AppendShows(Column(init), Stream(init), chunk);
          AppendFits(Column(init), chunk);
        case Note(text) =>
          NoteShows(Column(init), Stream(init), text);
      }
    }
  }

  /**
    After any appends and requeue notes the column equals the stream while that
    is shorter than the cap, always ends with its last min(length, CAP-128)
    bytes, and is within the cap exactly when the last write was an append, or
    a note that still fitted.
  */
  lemma StoredOutputFollowsStream(ws: seq<Write>)
    ensures |Stream(ws)| < CAP ==> Column(ws) == Stream(ws)
    ensures |Column(ws)| >= Min(|Stream(ws)|, CAP - 128)
    ensures Last(Column(ws), Min(|Stream(ws)|, CAP - 128)) == Last(Stream(ws), Min(|Stream(ws)|, CAP - 128))
    ensures |Column(ws)| <= CAP <==>
              ws == [] || ws[|ws| - 1].Append? || |Column(ws[..|ws| - 1])| + |ws[|ws| - 1].text| <= CAP
  {
    ColumnShows(ws);
    ShowsTail(Column(ws), Stream(ws));
    if ws != [] && ws[|ws| - 1].Append? {
      AppendFits(Column(ws[..|ws| - 1]), ws[|ws| - 1].chunk);
    }
  }

  /** The bytes of the requeue notes since the last append. */
  function NotesSince(ws: seq<Write>): nat {
    if ws == [] then 0
    else
      match ws[|ws| - 1]
      case Append(_) => 0
      case Note(text) => NotesSince(ws[..|ws| - 1]) + |text|
  }

  /** The column never exceeds the cap by more than the notes since the last append. */
  lemma {:induction false} ColumnBound(ws: seq<Write>)
    ensures |Column(ws)| <= CAP + NotesSince(ws)
  {
    if ws != [] {
      var init := ws[..|ws| - 1];
      match ws[|ws| - 1] {
        case Append(chunk) => AppendFits(Column(init), chunk);
        case Note(text) => ColumnBound(init);
      }
    }
  }

  function Zeros(n: nat): Bytes {
    seq(n, _ => 0)
  }

  lemma ColumnSnoc(ws: seq<Write>, w: Write)
    ensures Column(ws + [w]) == if w.Append? then Appended(Column(ws), w.chunk) else Column(ws) + w.text
    ensures NotesSince(ws + [w]) == if w.Append? then 0 else NotesSince(ws) + |w.text|
  {
    assert (ws + [w])[..|ws|] == ws;
  }

  /** The bound is reached: appends that fill the column exactly, and then any note at all. */
  lemma NoteExceedsCap(text: Bytes) returns (ws: seq<Write>)
    ensures |Column(ws)| == CAP + |text| && NotesSince(ws) == |text|
  {
    var filled: seq<Write> := [] + [Append(Zeros(CAP - 1))];
    ColumnSnoc([], Append(Zeros(CAP - 1)));
    ColumnSnoc(filled, Append(Zeros(1)));
    ColumnSnoc(filled + [Append(Zeros(1))], Note(text));
    ws := filled + [Append(Zeros(1))] + [Note(text)];
  }

  // ---- the buffer ----

  /** All of it, or a notice and the last CAP bytes. */
  function CutTo(mark: Bytes, all: Bytes): Bytes {
    if |all| > CAP then mark + Last(all, CAP) else all
  }

  function Buffered(buf: Bytes, p: Bytes): Bytes {
    CutTo(BUF_MARK, buf + p)
  }

  /** The buffer for bytes written since the last flush: those bytes, or one notice and their last CAP bytes. */
  function BufferOf(pending: Bytes): Bytes {
    CutTo(BUF_MARK, pending)
  }

  /** Up to 2^20 bytes nothing is lost before a flush; beyond that the buffer is the notice and exactly the last 2^20 bytes. */
  lemma BufferHolds(pending: Bytes)
    ensures |pending| <= 0x10_0000 ==> BufferOf(pending) == pending
    ensures |pending| > 0x10_0000 ==>
              && BUF_MARK <= BufferOf(pending) && |BufferOf(pending)| == |BUF_MARK| + 0x10_0000
              && BufferOf(pending)[|BUF_MARK|..] == pending[|pending| - 0x10_0000..]
  {
  }

  /** A column within 2^20 bytes is left whole, however it came about; a longer one keeps exactly its last 2^20 - 128 bytes. */
  lemma ColumnCut(cur: Bytes, chunk: Bytes)
    requires |chunk| < 0x10_0000
    ensures |cur| + |chunk| <= 0x10_0000 ==> Appended(cur, chunk) == cur + chunk
    ensures |cur| + |chunk| > 0x10_0000 ==>
              && FULL_MARK <= Appended(cur, chunk)
              && Appended(cur, chunk)[|FULL_MARK|..] == (cur + chunk)[|cur| + |chunk| - 0x10_0000 + 128..]
  {
  }

  /** The last n bytes do not depend on what is in front of the last n bytes so far. */
  lemma TailGrows(mark: Bytes, s: Bytes, p: Bytes, n: nat)
    requires n <= |s|
    ensures |mark + Last(s, n) + p| >= n && Last(mark + Last(s, n) + p, n) == Last(s + p, n)
  {
    assert mark + Last(s, n) + p == mark + (Last(s, n) + p);
    TailOfConcat(mark, Last(s, n) + p, n);
    SuffixFacts(Last(s, n), s, p, 0);
  }

  /** Notices never pile up: writing to a cut buffer cuts the same stream again. */
  lemma BufferStep(pending: Bytes, p: Bytes)
    ensures Buffered(BufferOf(pending), p) == BufferOf(pending + p)
  {
    assert BUF_MARK[0] == 46;
    CutTwice(BUF_MARK, pending, p);
  }

  lemma CutTwice(mark: Bytes, s: Bytes, p: Bytes)
    requires mark != []
    ensures CutTo(mark, CutTo(mark, s) + p) == CutTo(mark, s + p)
  {
    if |s| > CAP {
      TailGrows(mark, s, p, CAP);
    }
  }

  lemma CapChunkOfLong(chunk: Bytes)
    requires |chunk| >= CAP
    ensures CapChunk(chunk) == CHUNK_MARK + Last(chunk, CAP - 64)
  {
  }

  /** Buffering is invisible in the column: flushing the buffer stores what one append of all the bytes would. */
  lemma FlushIsOneAppend(cur: Bytes, pending: Bytes)
    ensures Appended(cur, BufferOf(pending)) == Appended(cur, pending)
  {
    if |pending| > CAP {
      var buf := BufferOf(pending);
      TailOfConcat(BUF_MARK, Last(pending, CAP), CAP - 64);
      LastOfLast(pending, CAP, CAP - 64);
      CapChunkOfLong(buf);
      CapChunkOfLong(pending);
    }
  }

  class OutputColumn {
    var output: Bytes

    constructor ()
      ensures output == []
    {
      output := [];
    }

    method AppendTaskOutput(chunk: Bytes)
      modifies this
      ensures output == Appended(old(output), chunk)
      ensures |output| <= CAP
    {
      var c := chunk;
      if |c| >= CAP {
        c := CHUNK_MARK + c[|c| - CAP + 64..];
      }
      var merged := output + c;
      if |merged| > CAP {
        merged := FULL_MARK + merged[|merged| - CAP + 128..];
      }
      output := merged;
    }
  }

  /** `pending` and `flushed` are the bytes written since and before the last flush. */
  class TaskWriter {
    const column: OutputColumn
    var buf: Bytes
    var closed: bool
    ghost var pending: Bytes
    ghost var flushed: Bytes

    ghost predicate Valid()
      reads this, column
    {
      && buf == BufferOf(pending)
      && Shows(column.output, flushed)
    }

    constructor (column: OutputColumn)
      ensures this.column == column && !closed
      ensures pending == [] && flushed == column.output && Valid()
    {
      this.column := column;
      buf, closed := [], false;
      pending, flushed := [], column.output;
    }

    method Write(p: Bytes)
      requires Valid()
      modifies this
      ensures Valid() && closed == old(closed) && flushed == old(flushed)
      ensures pending == if old(closed) then old(pending) else old(pending) + p
    {
      if closed {
        return;
      }
      BufferStep(pending, p);
      buf := buf + p;
      if |buf| > CAP {
        var cut := |buf| - CAP;
        buf := BUF_MARK + buf[cut..];
      }
      pending := pending + p;
    }

    method Flush()
      requires Valid()
      modifies this, column
      ensures Valid() && closed == old(closed)
      ensures pending == [] && flushed == old(flushed) + old(pending)
      ensures old(pending) != [] ==> column.output == Appended(old(column.output), old(pending))
      ensures old(pending) == [] ==> column.output == old(column.output)
    {
      if |buf| == 0 {
        return;
      }
      FlushIsOneAppend(column.output, pending);
      AppendShows(column.output, flushed, pending);
      var chunk := buf;
      buf := [];
      column.AppendTaskOutput(chunk);
      flushed, pending := flushed + pending, [];
    }

    method WriteAll(s: Bytes)
      requires Valid()
      modifies this, column
      ensures Valid() && closed == old(closed) && pending == []
      ensures flushed == old(flushed) + old(pending) + (if old(closed) then [] else s)
    {
      Write(s);
      assert !old(closed) ==> flushed + pending == old(flushed) + old(pending) + s;
      Flush();
    }

    method Close()
      requires Valid()
      modifies this, column
      ensures Valid() && closed
      ensures old(closed) ==> pending == old(pending) && flushed == old(flushed)
      ensures !old(closed) ==> pending == [] && flushed == old(flushed) + old(pending)
    {
      if closed {
        return;
      }
      closed := true;
      Flush();
    }
  }
}
