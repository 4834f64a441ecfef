/** Bounded memories of unbounded streams. */
module Buffers {
  // The tail of a process's output (src/process.rs) and bounded lines read in chunks
  // (src/tracy_collector.rs).

  import opened Basics

  const TAIL_BYTES: nat := 512 * 1024

  // ------------------------------------------------------------------ output tail

  /** The last `n` elements. */
  function Tail<T>(s: seq<T>, n: nat): seq<T> {
    if |s| <= n then s else s[|s| - n..]
  }

  lemma TailOfTail<T>(a: seq<T>, b: seq<T>, n: nat)
    ensures Tail(a + b, n) == Tail(Tail(a, n) + b, n)
    ensures |b| >= n ==> Tail(a + b, n) == b[|b| - n..]
  {
    if |b| >= n {
      assert Tail(a + b, n) == b[|b| - n..];
      assert Tail(Tail(a, n) + b, n) == b[|b| - n..];
    } else {
      var k := if |a| <= n then 0 else |a| - n;
      assert Tail(a, n) == a[k..];
      assert (a + b)[k..] == a[k..] + b;
    }
  }

  class TailBuffer {
    var bytes: seq<Byte>
    var truncated: nat
    ghost var history: seq<Byte>

    /** The buffer is the tail of everything pushed; the rest is counted. */
    ghost predicate Valid()
      reads this
    {
      && bytes == Tail(history, TAIL_BYTES)
      && truncated == Min(|history| - |bytes|, U64_MAX)
    }

    constructor ()
      ensures Valid() && history == []
    {
      bytes, truncated, history := [], 0, [];
    }

    method Push(chunk: seq<Byte>)
      requires Valid()
      modifies this
      ensures Valid() && history == old(history) + chunk
    {
      TailOfTail(history, chunk, TAIL_BYTES);
      history := history + chunk;
      if |chunk| >= TAIL_BYTES {
        truncated := Min(Min(truncated + |bytes|, U64_MAX) + (|chunk| - TAIL_BYTES), U64_MAX);
        bytes := chunk[|chunk| - TAIL_BYTES..];
        return;
      }
      var overflow := Max(|bytes| + |chunk| - TAIL_BYTES, 0);
      assert Tail(bytes + chunk, TAIL_BYTES) == bytes[overflow..] + chunk;
      if overflow != 0 {
        bytes := bytes[overflow..];
        truncated := Min(truncated + overflow, U64_MAX);
      }
      bytes := bytes + chunk;
    }
  }

  /** However a stream is cut into chunks, what is kept and counted is the same. */
  method PushAll(chunks: seq<seq<Byte>>) returns (buffer: TailBuffer)
    ensures buffer.Valid() && buffer.history == Flatten(chunks)
    ensures buffer.bytes == Tail(Flatten(chunks), TAIL_BYTES)
    ensures buffer.truncated == Min(Max(|Flatten(chunks)| - TAIL_BYTES, 0), U64_MAX)
  {
    buffer := new TailBuffer();
    for i := 0 to |chunks|
      invariant fresh(buffer) && buffer.Valid() && buffer.history == Flatten(chunks[..i])
    {
      assert chunks[..i + 1] == chunks[..i] + [chunks[i]];
      FlattenSnoc(chunks[..i], chunks[i]);
      buffer.Push(chunks[i]);
    }
    assert chunks[..|chunks|] == chunks;
  }

  // ----------------------------------------------------------------- bounded lines

  const NEWLINE: Byte := 10

  /** The length of the first line with its newline, or of everything. */
  function LineEnd(content: seq<Byte>): (n: nat)
    ensures n <= |content| && (content != [] ==> n > 0)
  {
    if content == [] then 0 else if content[0] == NEWLINE then 1 else 1 + LineEnd(content[1..])
  }

  predicate HasNewline(content: seq<Byte>) {
    NEWLINE in content
  }

  /** A reader that hands out what its source delivers, piece by piece. */
  class ChunkReader {
    var chunks: seq<seq<Byte>>

    predicate Valid()
      reads this
    {
      forall i :: 0 <= i < |chunks| ==> chunks[i] != []
    }

    function Content(): seq<Byte>
      reads this
    {
      Flatten(chunks)
    }

    constructor (chunks: seq<seq<Byte>>)
      requires forall i :: 0 <= i < |chunks| ==> chunks[i] != []
      ensures Valid() && this.chunks == chunks
    {
      this.chunks := chunks;
    }

    method Consume(n: nat)
      requires Valid() && chunks != [] && n <= |chunks[0]|
      modifies this
      ensures Valid() && n <= |old(Content())| && Content() == old(Content())[n..]
    {
      var first := chunks[0][n..];
      var rest := chunks[1..];
      ghost var before := Flatten(chunks);
      if first == [] {
        chunks := rest;
        assert before[n..] == Flatten(rest);
      } else {
        assert ([first] + rest)[1..] == rest;
        chunks := [first] + rest;
        assert before[n..] == first + Flatten(rest);
      }
    }
  }

  datatype Line = End | Line(bytes: seq<Byte>, truncated: bool) | TooLong

  /** What one call returns for a content: the line up to the limit and whether more of it
      was dropped, or, without draining, an error instead of dropping. */
  function LineOf(content: seq<Byte>, limit: nat, drain: bool): Line {
    var n := LineEnd(content);
    if content == [] then End
    else if n > limit && !drain then TooLong
    else Line.Line(content[..Min(n, limit)], n > limit)
  }

  /** A line ends with the first newline. */
  lemma {:induction false} LineEndIs(line: seq<Byte>, rest: seq<Byte>)
    requires NEWLINE !in line
    ensures LineEnd(line + [NEWLINE] + rest) == |line| + 1
    ensures LineEnd(line) == |line|
  {
    if line == [] {
      assert (line + [NEWLINE] + rest)[0] == NEWLINE;
    } else {
      assert (line + [NEWLINE] + rest)[1..] == line[1..] + [NEWLINE] + rest;
      LineEndIs(line[1..], rest);
    }
  }

  /** A line within the limit is returned whole, with its newline; of a longer one the front
      is returned and marked, or an error. */
  lemma LineReturned(line: seq<Byte>, rest: seq<Byte>, limit: nat, drain: bool)
    requires NEWLINE !in line
    ensures var r := LineOf(line + [NEWLINE] + rest, limit, drain);
            if |line| < limit then r == Line.Line(line + [NEWLINE], false)
            else if drain then r == Line.Line(line[..limit], true)
            else r == TooLong
    ensures line != [] && |line| <= limit ==> LineOf(line, limit, drain) == Line.Line(line, false)
    ensures LineOf([], limit, drain) == End
  {
    LineEndIs(line, rest);
    var all := line + [NEWLINE] + rest;
    assert all[..|line| + 1] == line + [NEWLINE];
    assert |line| >= limit ==> all[..limit] == line[..limit];
    assert line[..|line|] == line;
  }

  lemma {:induction false} LineEndSplit(a: seq<Byte>, b: seq<Byte>)
    ensures HasNewline(a) ==> LineEnd(a + b) == LineEnd(a)
    ensures !HasNewline(a) ==> LineEnd(a) == |a| && LineEnd(a + b) == |a| + LineEnd(b)
  {
    if a == [] {
      assert a + b == b;
    } else {
      assert (a + b)[1..] == a[1..] + b;
      LineEndSplit(a[1..], b);
      assert HasNewline(a) <==> a[0] == NEWLINE || HasNewline(a[1..]);
    }
  }

  /** Reads one line. The answer depends on the content alone, not on how it was cut. */
  method BoundedLine(reader: ChunkReader, limit: nat, drain: bool) returns (r: Line)
    requires reader.Valid()
    modifies reader
    ensures reader.Valid() && r == LineOf(old(reader.Content()), limit, drain)
    ensures r != TooLong ==> reader.Content() == old(reader.Content())[LineEnd(old(reader.Content()))..]
  {
    hide LineEnd, Flatten, LineOf, HasNewline;
    ghost var content := reader.Content();
    LineOfIs(content, limit, drain);
    ghost var taken: nat := 0;
    var bytes: seq<Byte>, truncated := [], false;
    Empties(content);
    while true
      invariant reader.Valid() && taken <= |content| && reader.Content() == content[taken..]
      invariant LineEnd(content) == taken + LineEnd(content[taken..])
      invariant bytes == content[..Min(taken, limit)] && truncated == (taken > limit)
      invariant truncated ==> drain
      decreases |content| - taken
    {
      if reader.chunks == [] {
        Empties(content[taken..]);
        assert content[..taken] == content;
        return if bytes != [] || truncated then Line.Line(bytes, truncated) else End;
      }
      var available := reader.chunks[0];
      var newline := NEWLINE in available;
      var consumed := LineEnd(available);
      var retained := Min(consumed, Max(limit - |bytes|, 0));
      OnePiece(content, taken, reader.chunks, limit);
      bytes := bytes + available[..retained];
      truncated := truncated || retained < consumed;
      reader.Consume(consumed);
      taken := taken + consumed;
      if truncated && !drain {
        return TooLong;
      }
      if newline {
        return Line.Line(bytes, truncated);
      }
    }
  }

  lemma LineOfIs(content: seq<Byte>, limit: nat, drain: bool)
    ensures var n := LineEnd(content);
            && (content == [] ==> LineOf(content, limit, drain) == End)
            && (content != [] && n > limit && !drain ==> LineOf(content, limit, drain) == TooLong)
            && (content != [] && (n <= limit || drain) ==>
                  LineOf(content, limit, drain) == Line.Line(content[..Min(n, limit)], n > limit))
  {
    hide LineEnd;
  }

  lemma PieceLine(piece: seq<Byte>, after: seq<Byte>)
    requires piece != []
    ensures var n := LineEnd(piece);
            && 0 < n <= |piece|
            && (piece + after)[n..] == piece[n..] + after
            && (if NEWLINE in piece then LineEnd(piece + after) == n
                else n == |piece| && (piece + after)[n..] == after && LineEnd(piece + after) == n + LineEnd(after))
  {
    hide LineEnd;
    LineEndSplit(piece, after);
    Empties(piece);
  }

  lemma TakeMore(content: seq<Byte>, taken: nat, piece: seq<Byte>, consumed: nat, limit: nat)
    requires taken <= |content| && consumed <= |piece| && piece <= content[taken..]
    ensures var retained := Min(consumed, Max(limit - Min(taken, limit), 0));
            content[..Min(taken, limit)] + piece[..retained] == content[..Min(taken + consumed, limit)]
    ensures content[taken + consumed..] == content[taken..][consumed..]
  {
    assert forall k :: 0 <= k < |piece| ==> piece[k] == content[taken..][k];
    if taken < limit {
      var retained := Min(consumed, limit - taken);
      assert piece[..retained] == content[taken..taken + retained];
    }
  }

  /** What the piece in hand contributes to the line. */
  lemma OnePiece(content: seq<Byte>, taken: nat, chunks: seq<seq<Byte>>, limit: nat)
    requires chunks != [] && chunks[0] != [] && taken <= |content| && Flatten(chunks) == content[taken..]
    requires LineEnd(content) == taken + LineEnd(content[taken..])
    ensures var piece := chunks[0];
            var consumed := LineEnd(piece);
            var retained := Min(consumed, Max(limit - Min(taken, limit), 0));
            && 0 < consumed <= |piece| && taken + consumed <= |content|
            && content[..Min(taken, limit)] + piece[..retained] == content[..Min(taken + consumed, limit)]
            && content[taken + consumed..] == content[taken..][consumed..]
            && (if NEWLINE in piece then LineEnd(content) == taken + consumed
                else LineEnd(content) == taken + consumed + LineEnd(content[taken + consumed..]))
  {
    hide LineEnd;
    var piece, rest := chunks[0], Flatten(chunks[1..]);
    PieceLine(piece, rest);
    TakeMore(content, taken, piece, LineEnd(piece), limit);
  }

  lemma Empties(content: seq<Byte>)
    ensures LineEnd([]) == 0 && LineEnd(content) <= |content| && (content != [] ==> LineEnd(content) > 0)
    ensures content[0..] == content && Flatten<Byte>([]) == []
  {
  }
}
