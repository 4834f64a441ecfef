/** The runtime output log (src/state.rs): the longest suffix of the lines ever pushed that
    stays within the entry, line and byte bounds. Texts are UTF-8 bytes. */
module OutputLog {
  import opened Basics

  const CAPACITY: nat := 500
  const LINE_BYTES: nat := 16 * 1024
  const TOTAL_BYTES: nat := 1024 * 1024
  /** "... [truncated]" */
  const SUFFIX: seq<Byte> := [46, 46, 46, 32, 91, 116, 114, 117, 110, 99, 97, 116, 101, 100, 93]

  datatype Entry = Entry(sequence: nat, offset: nat, text: seq<Byte>)

  // ------------------------------------------------------------------ long lines

  /** A text may be cut before any byte that does not continue a character. */
  predicate IsBoundary(line: seq<Byte>, i: nat) {
    i == 0 || i == |line| || (i < |line| && !(0x80 <= line[i] < 0xC0))
  }

  /** A line as it is kept: itself, or its longest whole-character prefix that leaves room
      for the mark. */
  predicate KeptAs(line: seq<Byte>, kept: seq<Byte>) {
    if |line| <= LINE_BYTES then kept == line
    else
      && |kept| >= |SUFFIX|
      && var cut := |kept| - |SUFFIX|;
      && cut <= LINE_BYTES - |SUFFIX| && kept == line[..cut] + SUFFIX && IsBoundary(line, cut)
      && forall i :: cut < i <= LINE_BYTES - |SUFFIX| ==> !IsBoundary(line, i)
  }

  method TruncateLine(line: seq<Byte>) returns (kept: seq<Byte>)
    ensures KeptAs(line, kept) && |kept| <= LINE_BYTES
  {
    if |line| <= LINE_BYTES {
      return line;
    }
    var cut: nat := LINE_BYTES - |SUFFIX|;
    while !IsBoundary(line, cut)
      invariant cut <= LINE_BYTES - |SUFFIX|
      invariant forall i :: cut < i <= LINE_BYTES - |SUFFIX| ==> !IsBoundary(line, i)
      decreases cut
    {
      cut := cut - 1;
    }
    kept := line[..cut] + SUFFIX;
  }

  /** One character by section 4 of RFC 3629, surrogates and overlong forms not excluded. */
  predicate IsCharacter(c: seq<Byte>) {
    && c != []
    && (forall k :: 1 <= k < |c| ==> 0x80 <= c[k] <= 0xBF)
    && match |c|
       case 1 => c[0] <= 0x7F
       case 2 => 0xC2 <= c[0] <= 0xDF
       case 3 => 0xE0 <= c[0] <= 0xEF
       case _ => |c| == 4 && 0xF0 <= c[0] <= 0xF4
  }

  function Spelled(chars: seq<seq<Byte>>): seq<Byte> {
    if chars == [] then [] else Spelled(chars[..|chars| - 1]) + chars[|chars| - 1]
  }

  lemma {:induction false} SpelledPrefix(chars: seq<seq<Byte>>, n: nat)
    requires n <= |chars|
    ensures Spelled(chars[..n]) <= Spelled(chars)
    decreases |chars|
  {
    if n == |chars| {
      assert chars[..n] == chars;
    } else {
      var init := chars[..|chars| - 1];
      SpelledPrefix(init, n);
      assert init[..n] == chars[..n];
    }
  }

  lemma LeadOrNot(c: seq<Byte>, k: nat)
    requires IsCharacter(c) && k < |c|
    ensures 0x80 <= c[k] < 0xC0 <==> k > 0
  {
  }

  /** A text can be cut exactly between its characters. */
  lemma {:induction false} BoundaryMeaning(chars: seq<seq<Byte>>, i: nat)
    requires forall c <- chars :: IsCharacter(c)
    requires i <= |Spelled(chars)|
    ensures IsBoundary(Spelled(chars), i) <==> exists n: nat :: n <= |chars| && |Spelled(chars[..n])| == i
    decreases |chars|
  {
    if chars == [] {
      assert |Spelled(chars[..0])| == i;
    } else {
      var init, c := chars[..|chars| - 1], chars[|chars| - 1];
      var line, from := Spelled(chars), |Spelled(init)|;
      assert chars[..|chars|] == chars && chars[..|init|] == init;
      if i == |line| {
        assert |Spelled(chars[..|chars|])| == i;
      } else if i < from {
        BoundaryMeaning(init, i);
        assert line[i] == Spelled(init)[i];
        assert forall n: nat | n <= |init| :: init[..n] == chars[..n];
      } else {
        assert line[i] == c[i - from];
        LeadOrNot(c, i - from);
        assert i == 0 ==> i == from;
        assert |Spelled(chars[..|init|])| == from;
        forall n: nat | n <= |chars| && |Spelled(chars[..n])| == i ensures i == from {
          EarlierShorter(chars, n);
        }
      }
    }
  }

  lemma EarlierShorter(chars: seq<seq<Byte>>, n: nat)
    requires n <= |chars| && chars != []
    ensures if n < |chars| then |Spelled(chars[..n])| <= |Spelled(chars[..|chars| - 1])| else Spelled(chars[..n]) == Spelled(chars)
  {
    if n < |chars| {
      SpelledPrefix(chars[..|chars| - 1], n);
      assert chars[..|chars| - 1][..n] == chars[..n];
    } else {
      assert chars[..n] == chars;
    }
  }

  /** What is kept of a long line: as many whole characters as leave room for the mark. */
  lemma KeptMeaning(chars: seq<seq<Byte>>, kept: seq<Byte>)
    requires forall c <- chars :: IsCharacter(c)
    requires |Spelled(chars)| > LINE_BYTES && KeptAs(Spelled(chars), kept)
    ensures exists n: nat :: n < |chars| && kept == Spelled(chars[..n]) + SUFFIX && |kept| <= LINE_BYTES
                             && |Spelled(chars[..n + 1])| + |SUFFIX| > LINE_BYTES
  {
    hide IsBoundary, IsCharacter, Spelled;
    var line, cut := Spelled(chars), |kept| - |SUFFIX|;
    BoundaryMeaning(chars, cut);
    var n: nat :| n <= |chars| && |Spelled(chars[..n])| == cut;
    SpelledPrefix(chars, n);
    assert line[..cut] == Spelled(chars[..n]);
    assert chars[..|chars|] == chars;
    assert n < |chars|;
    var next := |Spelled(chars[..n + 1])|;
    SpelledPrefix(chars, n + 1);
    if next + |SUFFIX| <= LINE_BYTES {
      BoundaryMeaning(chars, next);
      SpelledNext(chars, n);
      assert false;
    }
  }

  lemma SpelledNext(chars: seq<seq<Byte>>, n: nat)
    requires n < |chars| && IsCharacter(chars[n])
    ensures |Spelled(chars[..n + 1])| > |Spelled(chars[..n])|
  {
    assert chars[..n + 1][..n] == chars[..n];
  }

  // ------------------------------------------------------------------------- log

  function Bytes(entries: seq<Entry>): nat {
    if entries == [] then 0 else |entries[0].text| + Bytes(entries[1..])
  }

  predicate Fits(entries: seq<Entry>) {
    |entries| <= CAPACITY && Bytes(entries) <= TOTAL_BYTES
  }

  function Last(history: seq<Entry>, n: nat): seq<Entry>
    requires n <= |history|
  {
    history[|history| - n..]
  }

  /** The last `n` fit, and no longer suffix does. */
  predicate LongestFit(history: seq<Entry>, n: nat) {
    && n <= |history| && Fits(Last(history, n))
    && (n < |history| ==> !Fits(Last(history, n + 1)))
  }

  lemma {:induction false} BytesJoin(a: seq<Entry>, b: seq<Entry>)
    ensures Bytes(a + b) == Bytes(a) + Bytes(b)
  {
    if a == [] {
      assert a + b == b;
    } else {
      assert (a + b)[1..] == a[1..] + b;
      BytesJoin(a[1..], b);
    }
  }

  /** A suffix of entries that fit fits too. */
  lemma ShorterFits(history: seq<Entry>, n: nat, k: nat)
    requires k <= n <= |history| && Fits(Last(history, n))
    ensures Fits(Last(history, k))
  {
    var all := Last(history, n);
    assert all == all[..n - k] + Last(history, k);
    BytesJoin(all[..n - k], Last(history, k));
  }

  /** What does not fit still does not when an entry follows. */
  lemma LongerStillTooMuch(history: seq<Entry>, n: nat, e: Entry)
    requires n < |history| && !Fits(Last(history, n + 1))
    ensures !Fits(Last(history + [e], n + 2))
  {
    assert Last(history + [e], n + 2) == Last(history, n + 1) + [e];
    BytesJoin(Last(history, n + 1), [e]);
  }

  /** There is only one longest suffix that fits. */
  lemma LongestFitUnique(history: seq<Entry>, m: nat, n: nat)
    requires LongestFit(history, m) && LongestFit(history, n)
    ensures m == n
  {
    hide Fits;
    if m < n {
      ShorterFits(history, n, m + 1);
    } else if n < m {
      ShorterFits(history, m, n + 1);
    }
  }

  /** Sequence numbers count from one, and every text is within the line bound. */
  ghost predicate Numbered(history: seq<Entry>) {
    forall i :: 0 <= i < |history| ==> history[i].sequence == Min(i + 1, U64_MAX) && |history[i].text| <= LINE_BYTES
  }

  lemma NumberedNext(history: seq<Entry>, e: Entry)
    requires Numbered(history) && e.sequence == Min(|history| + 1, U64_MAX) && |e.text| <= LINE_BYTES
    ensures Numbered(history + [e])
  {
  }

  class OutputBuffer {
    var entries: seq<Entry>
    var nextSequence: nat
    ghost var history: seq<Entry>

    ghost predicate Valid()
      reads this
    {
      && |entries| <= |history| && entries == Last(history, |entries|) && LongestFit(history, |entries|)
      && nextSequence == Min(|history| + 1, U64_MAX)
      && Numbered(history)
    }

    constructor ()
      ensures Valid() && history == []
    {
      entries, nextSequence, history := [], 1, [];
      new;
      assert Last(history, 0) == [];
    }

    /** Drops the oldest entries until the rest fits; the newest always does. */
    method DropOverflow()
      requires Numbered(history) && 0 < |entries| <= |history| && entries == Last(history, |entries|)
      requires |entries| <= CAPACITY
      requires |entries| < |history| ==> !Fits(Last(history, |entries| + 1))
      modifies this`entries
      ensures 0 < |entries| <= |history| && entries == Last(history, |entries|) && LongestFit(history, |entries|)
    {
      hide Fits, Bytes, Numbered;
      while Bytes(entries) > TOTAL_BYTES
        invariant 0 < |entries| <= |history| && entries == Last(history, |entries|)
        invariant |entries| <= CAPACITY
        invariant |entries| < |history| ==> !Fits(Last(history, |entries| + 1))
        decreases |entries|
      {
        OneFits(history, |entries|);
        TooMuch(entries);
        entries := entries[1..];
      }
      FitsNow(entries);
    }

    /** Appends a line: the log then ends with it, and holds as many of the earlier lines as
        the bounds allow. */
    method Push(offset: nat, line: seq<Byte>)
      requires Valid()
      modifies this
      ensures Valid()
      ensures |history| == |old(history)| + 1 && history[..|old(history)|] == old(history)
      ensures var e := history[|old(history)|];
              e.sequence == old(nextSequence) && e.offset == offset && KeptAs(line, e.text)
      ensures entries != [] && entries[|entries| - 1] == history[|history| - 1]
    {
      hide Fits, KeptAs, Bytes, Numbered, Last, LongestFit;
      ghost var before := history;
      var kept := TruncateLine(line);
      var e := Entry(nextSequence, offset, kept);
      LongestWithin(before, |entries|);
      AfterAppend(history, |entries|, e);
      NumberedNext(history, e);
      if |entries| >= CAPACITY {
        entries := entries[1..];
      }
      history := history + [e];
      nextSequence := Min(nextSequence + 1, U64_MAX);
      entries := entries + [e];
      assert history[..|before|] == before && history[|before|] == e;
      DropOverflow();
      LastEnds(history, |entries|);
    }
  }

  lemma LongestWithin(history: seq<Entry>, n: nat)
    requires LongestFit(history, n)
    ensures n <= CAPACITY && |Last(history, n)| == n
  {
  }

  lemma LastEnds(history: seq<Entry>, n: nat)
    requires 0 < n <= |history|
    ensures |Last(history, n)| == n && Last(history, n)[n - 1] == history[|history| - 1]
  {
  }

  lemma AfterAppend(before: seq<Entry>, n: nat, e: Entry)
    requires LongestFit(before, n)
    ensures var rest := if n >= CAPACITY then Last(before, n)[1..] else Last(before, n);
            var m := |rest| + 1;
            && m <= |before| + 1 && m <= CAPACITY
            && Last(before + [e], m) == rest + [e]
            && (m < |before| + 1 ==> !Fits(Last(before + [e], m + 1)))
  {
    if n < CAPACITY && n < |before| {
      LongerStillTooMuch(before, n, e);
    }
  }

  lemma OneFits(history: seq<Entry>, n: nat)
    requires 0 < n <= |history| && Numbered(history)
    ensures n == 1 ==> Bytes(Last(history, n)) <= LINE_BYTES
  {
    if n == 1 {
      var only := Last(history, 1);
      assert only[0] == history[|history| - 1];
      assert only[1..] == [];
    }
  }

  lemma TooMuch(entries: seq<Entry>)
    requires Bytes(entries) > TOTAL_BYTES
    ensures !Fits(entries)
  {
  }

  lemma FitsNow(entries: seq<Entry>)
    requires Bytes(entries) <= TOTAL_BYTES && |entries| <= CAPACITY
    ensures Fits(entries)
  {
  }

  /** The last entry not later than an offset. Offsets need not be in order. */
  method NearestBefore(entries: seq<Entry>, offset: nat) returns (r: Option<Entry>)
    ensures r.None? ==> forall e <- entries :: e.offset > offset
    ensures r.Some? ==> exists i :: 0 <= i < |entries| && entries[i] == r.value && r.value.offset <= offset
                                    && forall j :: i < j < |entries| ==> entries[j].offset > offset
  {
    var i := |entries|;
    while i > 0
      invariant 0 <= i <= |entries| && forall j :: i <= j < |entries| ==> entries[j].offset > offset
    {
      i := i - 1;
      if entries[i].offset <= offset {
        return Some(entries[i]);
      }
    }
    return None;
  }
}
