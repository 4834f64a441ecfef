/** Rewriting the values of protected fields in free text
    (src/native_evidence/redaction.rs). */
module Redaction {
  import opened Basics

  const MASK := "<redacted>"

  const FIELDS: seq<string> :=
    [ "player", "player_id", "client", "client_id", "account", "account_id", "key", "ckey", "mob", "mob_id", "discord",
      "discord_id" ]

  function Lower(c: char): char {
    if 'A' <= c <= 'Z' then c - 'A' + 'a' else c
  }

  function LowerAll(s: string): string {
    seq(|s|, k requires 0 <= k < |s| => Lower(s[k]))
  }

  /** An ASCII letter, digit or underscore; other characters bound a word. */
  predicate IsWord(c: char) {
    'a' <= c <= 'z' || 'A' <= c <= 'Z' || '0' <= c <= '9' || c == '_'
  }

  predicate IsWhite(c: char) {
    || '\t' <= c <= '\r' || c == ' ' || c == '\U{0085}' || c == '\U{00A0}' || c == '\U{1680}'
    || '\U{2000}' <= c <= '\U{200A}' || c == '\U{2028}' || c == '\U{2029}' || c == '\U{202F}' || c == '\U{205F}'
    || c == '\U{3000}'
  }

  predicate IsDelimiter(c: char) {
    IsWhite(c) || c == ',' || c == ';'
  }

  /** A lower-case field name and an equals sign. */
  predicate IsMarker(m: string) {
    && |m| >= 2 && m[|m| - 1] == '='
    && forall k :: 0 <= k < |m| - 1 ==> 'a' <= m[k] <= 'z' || m[k] == '_'
  }

  predicate MarkedAt(s: string, m: string, i: nat) {
    i + |m| <= |s| && LowerAll(s[i..i + |m|]) == m
  }

  predicate BoundedAt(s: string, i: nat) {
    i <= |s| && (i == 0 || !IsWord(s[i - 1]))
  }

  predicate DelimitedAt(s: string, i: nat) {
    i == |s| || (i < |s| && IsDelimiter(s[i]))
  }

  predicate MaskedAt(s: string, i: nat) {
    i + |MASK| <= |s| && s[i..i + |MASK|] == MASK && DelimitedAt(s, i + |MASK|)
  }

  /** Every word-bounded occurrence of the field has nothing but the mask for its value. */
  ghost predicate Clean(s: string, m: string) {
    forall i: nat :: MarkedAt(s, m, i) && BoundedAt(s, i) ==> MaskedAt(s, i + |m|)
  }

  function FindMarker(s: string, m: string, from: nat): (i: Option<nat>)
    ensures i.Some? ==> from <= i.value && MarkedAt(s, m, i.value)
    ensures i.Some? ==> forall j: nat :: from <= j < i.value ==> !MarkedAt(s, m, j)
    ensures i.None? ==> forall j: nat :: from <= j ==> !MarkedAt(s, m, j)
    decreases |s| - from
  {
    if from + |m| > |s| then None
    else if MarkedAt(s, m, from) then Some(from)
    else FindMarker(s, m, from + 1)
  }

  function ValueEnd(s: string, from: nat): (e: nat)
    requires from <= |s|
    ensures from <= e <= |s| && DelimitedAt(s, e)
    ensures forall j :: from <= j < e ==> !IsDelimiter(s[j])
    decreases |s| - from
  {
    if from == |s| || IsDelimiter(s[from]) then from else ValueEnd(s, from + 1)
  }

  function Mask(s: string, from: nat): string
    requires from <= |s|
  {
    s[..from] + MASK + s[ValueEnd(s, from)..]
  }

  /** One field's pass from a cursor on. The text grows and shrinks, but what lies beyond
      the cursor always gets shorter. */
  function Pass(s: string, m: string, cursor: nat): string
    requires m != "" && cursor <= |s|
    decreases |s| - cursor
  {
    var found := FindMarker(s, m, cursor);
    if found.None? then s
    else
      var start := found.value;
      if !BoundedAt(s, start) then Pass(s, m, start + 1)
      else Pass(Mask(s, start + |m|), m, start + |m| + |MASK|)
  }

  // ------------------------------------------------------------ what masking does

  lemma MarkerChars(s: string, m: string, i: nat, k: nat)
    requires IsMarker(m) && MarkedAt(s, m, i) && k < |m|
    ensures s[i + k] == '=' <==> k == |m| - 1
    ensures k < |m| - 1 ==> IsWord(s[i + k]) && !IsDelimiter(s[i + k]) && s[i + k] != '<' && s[i + k] != '>'
  {
    assert Lower(s[i..i + |m|][k]) == LowerAll(s[i..i + |m|])[k] == m[k];
  }

  lemma MaskChars(k: nat)
    requires k < |MASK|
    ensures MASK[k] != '=' && !IsDelimiter(MASK[k]) && |MASK| == 10 && MASK[9] == '>' && MASK[0] == '<'
  {
  }

  lemma MaskAt(s: string, from: nat, k: nat)
    requires from <= |s|
    ensures var t := Mask(s, from);
            && |t| == |s| + |MASK| - (ValueEnd(s, from) - from)
            && (k < from ==> t[k] == s[k])
            && (from <= k < from + |MASK| ==> t[k] == MASK[k - from])
            && (from + |MASK| <= k < |t| ==> t[k] == s[k - |MASK| + (ValueEnd(s, from) - from)])
  {
  }

  /** After masking behind an equals sign, a marker lies before that sign or after the mask. */
  lemma MarkerApart(s: string, from: nat, m: string, i: nat)
    requires 0 < from <= |s| && s[from - 1] == '=' && IsMarker(m) && MarkedAt(Mask(s, from), m, i)
    ensures i + |m| <= from || i > from + |MASK|
  {
    hide Mask, MarkedAt, IsDelimiter, IsWord;
    var t := Mask(s, from);
    MaskAt(s, from, from - 1);
    InText(t, m, i);
    forall j | i <= j < i + |m| - 1 ensures t[j] != '=' && t[j] != '>' && !IsDelimiter(t[j]) {
      MarkerChars(t, m, i, j - i);
    }
    MarkerChars(t, m, i, |m| - 1);
    forall j | from <= j < from + |MASK| ensures t[j] == MASK[j - from] != '=' {
      MaskAt(s, from, j);
      MaskChars(j - from);
    }
    MaskChars(9);
    assert t[from + 9] == '>';
    if i == from + |MASK| {
      MaskAt(s, from, i);
    }
  }

  lemma Prefixed(s: string, n: nat, lo: nat, hi: nat)
    requires lo <= hi <= n <= |s|
    ensures s[lo..hi] == s[..n][lo..hi]
  {
  }

  lemma Suffixed(s: string, n: nat, lo: nat, hi: nat)
    requires n <= lo <= hi <= |s|
    ensures s[lo..hi] == s[n..][lo - n..hi - n]
  {
  }

  lemma InText(s: string, m: string, i: nat)
    requires MarkedAt(s, m, i)
    ensures i + |m| <= |s|
  {
  }

  lemma SameMark(s: string, t: string, m: string, i: nat, j: nat)
    requires i + |m| <= |s| && j + |m| <= |t| && s[i..i + |m|] == t[j..j + |m|]
    ensures MarkedAt(s, m, i) <==> MarkedAt(t, m, j)
  {
  }

  lemma SameMask(s: string, t: string, i: nat, j: nat)
    requires i <= |s| && j <= |t| && s[i..] == t[j..]
    ensures MaskedAt(s, i) <==> MaskedAt(t, j)
  {
    assert |s| - i == |t| - j;
    if i + |MASK| <= |s| {
      assert s[i..i + |MASK|] == s[i..][..|MASK|] == t[j..][..|MASK|] == t[j..j + |MASK|];
      if i + |MASK| < |s| {
        assert s[i..][|MASK|] == t[j..][|MASK|];
      }
    }
  }

  /** The parts of a masked text that were there before. */
  lemma MaskParts(s: string, from: nat)
    requires from <= |s|
    ensures var t, e := Mask(s, from), ValueEnd(s, from);
            t[..from] == s[..from] && t[from..from + |MASK|] == MASK && t[from + |MASK|..] == s[e..]
  {
  }

  /** Masking one field's value leaves another field's occurrences as clean as they were. */
  lemma MaskKeepsClean(s: string, from: nat, m: string)
    requires 0 < from <= |s| && s[from - 1] == '=' && IsMarker(m) && Clean(s, m)
    ensures Clean(Mask(s, from), m)
  {
    hide Mask, MarkedAt, MaskedAt, BoundedAt, IsMarker, ValueEnd;
    forall i: nat | MarkedAt(Mask(s, from), m, i) && BoundedAt(Mask(s, from), i)
      ensures MaskedAt(Mask(s, from), i + |m|)
    {
      MarkerApart(s, from, m, i);
      InText(Mask(s, from), m, i);
      if i + |m| <= from {
        CleanBefore(s, from, m, i);
      } else {
        CleanAfter(s, from, m, i);
      }
    }
  }

  lemma CleanBefore(s: string, from: nat, m: string, i: nat)
    requires 0 < from <= |s| && s[from - 1] == '='
    requires MarkedAt(s, m, i) && BoundedAt(s, i) ==> MaskedAt(s, i + |m|)
    requires i + |m| <= from && MarkedAt(Mask(s, from), m, i) && BoundedAt(Mask(s, from), i)
    ensures MaskedAt(Mask(s, from), i + |m|)
  {
    hide Mask, MarkedAt, IsMarker, ValueEnd, IsDelimiter, IsWord;
    var t, v := Mask(s, from), i + |m|;
    InText(t, m, i);
    MaskParts(s, from);
    MaskAt(s, from, 0);
    Prefixed(t, from, i, v);
    Prefixed(s, from, i, v);
    SameMark(t, s, m, i, i);
    if i > 0 {
      MaskAt(s, from, i - 1);
    }
    assert MaskedAt(s, v);
    MaskAfterMask(s, from);
    if v < from {
      FarApart(s, from, v);
      Prefixed(t, from, v, v + |MASK|);
      Prefixed(s, from, v, v + |MASK|);
      MaskAt(s, from, v + |MASK|);
    }
  }

  /** A mask that starts before an equals sign ends, with its delimiter, before it. */
  lemma FarApart(s: string, from: nat, v: nat)
    requires v < from <= |s| && s[from - 1] == '=' && MaskedAt(s, v)
    ensures v + |MASK| < from - 1
  {
    forall j | v <= j < v + |MASK| ensures s[j] != '=' {
      MaskChars(j - v);
      assert s[j] == s[v..v + |MASK|][j - v];
    }
    assert v + |MASK| != from - 1;
  }

  lemma MaskAfterMask(s: string, from: nat)
    requires from <= |s|
    ensures MaskedAt(Mask(s, from), from)
  {
    MaskParts(s, from);
    MaskChars(0);
    var t, e := Mask(s, from), ValueEnd(s, from);
    if e < |s| {
      MaskAt(s, from, from + |MASK|);
    }
  }

  lemma CleanAfter(s: string, from: nat, m: string, i: nat)
    requires 0 < from <= |s| && Clean(s, m)
    requires i > from + |MASK| && MarkedAt(Mask(s, from), m, i) && BoundedAt(Mask(s, from), i)
    ensures MaskedAt(Mask(s, from), i + |m|)
  {
    hide Mask, MarkedAt, MaskedAt, IsMarker, ValueEnd, IsWord;
    var t, e, n := Mask(s, from), ValueEnd(s, from), from + |MASK|;
    MaskParts(s, from);
    InText(t, m, i);
    var j := e + (i - n);
    MaskAt(s, from, 0);
    Suffixed(t, n, i, i + |m|);
    Suffixed(s, e, j, j + |m|);
    SameMark(t, s, m, i, j);
    MaskAt(s, from, i - 1);
    assert BoundedAt(s, j);
    Suffixed(t, n, i + |m|, |t|);
    Suffixed(s, e, j + |m|, |s|);
    assert t[i + |m|..] == t[i + |m|..|t|] && s[j + |m|..] == s[j + |m|..|s|];
    SameMask(t, s, i + |m|, j + |m|);
  }

  // ---------------------------------------------------------------------- passes

  lemma {:induction false} PassKeepsClean(s: string, m: string, cursor: nat, other: string)
    requires IsMarker(m) && IsMarker(other) && cursor <= |s| && Clean(s, other)
    ensures Clean(Pass(s, m, cursor), other)
    decreases |s| - cursor
  {
    hide Mask, MarkedAt, BoundedAt, Clean, FindMarker, IsMarker;
    var found := FindMarker(s, m, cursor);
    if found.Some? {
      var start := found.value;
      MarkStart(s, m, start);
      if !BoundedAt(s, start) {
        PassKeepsClean(s, m, start + 1, other);
      } else {
        var v := start + |m|;
        MaskKeepsClean(s, v, other);
        MaskAt(s, v, 0);
        PassKeepsClean(Mask(s, v), m, v + |MASK|, other);
      }
    }
  }

  lemma MarkStart(s: string, m: string, i: nat)
    requires IsMarker(m) && MarkedAt(s, m, i)
    ensures |m| >= 2 && i + |m| <= |s| && s[i + |m| - 1] == '='
  {
    MarkerChars(s, m, i, |m| - 1);
  }

  ghost predicate CleanUpTo(s: string, m: string, cursor: nat) {
    forall i: nat :: i < cursor && MarkedAt(s, m, i) && BoundedAt(s, i) ==> MaskedAt(s, i + |m|)
  }

  lemma MaskCleansUpTo(s: string, m: string, cursor: nat, start: nat)
    requires IsMarker(m) && cursor <= |s| && CleanUpTo(s, m, cursor)
    requires FindMarker(s, m, cursor) == Some(start)
    ensures start + |m| <= |s| && CleanUpTo(Mask(s, start + |m|), m, start + |m| + |MASK|)
  {
    hide Mask, MarkedAt, BoundedAt, MaskedAt, FindMarker, IsMarker;
    MarkStart(s, m, start);
    var v := start + |m|;
    forall i: nat | i < v + |MASK| && MarkedAt(Mask(s, v), m, i) && BoundedAt(Mask(s, v), i)
      ensures MaskedAt(Mask(s, v), i + |m|)
    {
      MarkerApart(s, v, m, i);
      if i == start {
        MaskAfterMask(s, v);
      } else {
        CleanBefore(s, v, m, i);
      }
    }
  }

  /** One pass leaves every occurrence of its field clean. */
  lemma {:induction false} PassCleans(s: string, m: string, cursor: nat)
    requires IsMarker(m) && cursor <= |s| && CleanUpTo(s, m, cursor)
    ensures Clean(Pass(s, m, cursor), m)
    decreases |s| - cursor
  {
    hide Mask, MarkedAt, MaskedAt, BoundedAt, FindMarker, IsMarker;
    var found := FindMarker(s, m, cursor);
    if found.Some? {
      var start := found.value;
      MarkStart(s, m, start);
      if !BoundedAt(s, start) {
        PassCleans(s, m, start + 1);
      } else {
        MaskCleansUpTo(s, m, cursor, start);
        MaskAt(s, start + |m|, 0);
        PassCleans(Mask(s, start + |m|), m, start + |m| + |MASK|);
      }
    }
  }

  lemma MaskIdle(s: string, from: nat)
    requires from <= |s| && MaskedAt(s, from)
    ensures Mask(s, from) == s
  {
    hide IsDelimiter;
    forall j | from <= j < from + |MASK| ensures !IsDelimiter(s[j]) {
      MaskChars(j - from);
      assert s[j] == s[from..from + |MASK|][j - from];
    }
    assert ValueEnd(s, from) == from + |MASK|;
    assert s == s[..from] + s[from..from + |MASK|] + s[from + |MASK|..];
  }

  lemma {:induction false} PassIdle(s: string, m: string, cursor: nat)
    requires IsMarker(m) && cursor <= |s| && Clean(s, m)
    ensures Pass(s, m, cursor) == s
    decreases |s| - cursor
  {
    hide Mask, MarkedAt, MaskedAt, BoundedAt, FindMarker, IsMarker;
    var found := FindMarker(s, m, cursor);
    if found.Some? {
      var start := found.value;
      MarkStart(s, m, start);
      if !BoundedAt(s, start) {
        PassIdle(s, m, start + 1);
      } else {
        MaskIdle(s, start + |m|);
        MaskAt(s, start + |m|, 0);
        InMask(s, start + |m|);
        PassIdle(s, m, start + |m| + |MASK|);
      }
    }
  }

  lemma InMask(s: string, i: nat)
    requires MaskedAt(s, i)
    ensures i + |MASK| <= |s|
  {
  }

  function Passes(s: string, fields: seq<string>): string
    decreases |fields|
  {
    if fields == [] then s else Passes(Pass(s, fields[0] + "=", 0), fields[1..])
  }

  function Sanitize(text: string): string {
    Passes(text, FIELDS)
  }

  ghost predicate AllClean(s: string, fields: seq<string>) {
    forall f <- fields :: Clean(s, f + "=")
  }

  predicate AllMarkers(fields: seq<string>) {
    forall f <- fields :: IsMarker(f + "=")
  }

  predicate IsName(f: string) {
    f != "" && forall k :: 0 <= k < |f| ==> 'a' <= f[k] <= 'z' || f[k] == '_'
  }

  lemma NameIsMarker(f: string)
    requires IsName(f)
    ensures IsMarker(f + "=")
  {
  }

  lemma NamesOne()
    ensures IsName("player") && IsName("player_id") && IsName("client") && IsName("client_id")
  {
  }

  lemma NamesTwo()
    ensures IsName("account") && IsName("account_id") && IsName("key") && IsName("ckey")
  {
  }

  lemma NamesThree()
    ensures IsName("mob") && IsName("mob_id") && IsName("discord") && IsName("discord_id")
  {
  }

  lemma FieldsAreMarkers()
    ensures AllMarkers(FIELDS)
  {
    hide IsName, IsMarker;
    NamesOne();
    NamesTwo();
    NamesThree();
    forall f | f in FIELDS ensures IsMarker(f + "=") {
      NameIsMarker(f);
    }
  }

  lemma {:induction false} PassesClean(s: string, done: seq<string>, fields: seq<string>)
    requires AllMarkers(done) && AllMarkers(fields) && AllClean(s, done)
    ensures AllClean(Passes(s, fields), done + fields)
    decreases |fields|
  {
    hide IsMarker, Clean;
    if fields == [] {
      assert done + fields == done;
    } else {
      var m := fields[0] + "=";
      var t := Pass(s, m, 0);
      CleanAtStart(s, m);
      PassCleans(s, m, 0);
      forall f | f in done + [fields[0]] ensures Clean(t, f + "=") && IsMarker(f + "=") {
        if f in done {
          PassKeepsClean(s, m, 0, f + "=");
        }
      }
      PassesClean(t, done + [fields[0]], fields[1..]);
      assert done + [fields[0]] + fields[1..] == done + fields;
    }
  }

  lemma CleanAtStart(s: string, m: string)
    ensures CleanUpTo(s, m, 0)
  {
  }

  /** After sanitizing, every word-bounded `field=` of every protected field, in any case,
      is followed by the mask and then by a delimiter or the end: later passes undo none of
      the earlier ones. */
  lemma SanitizedIsClean(text: string)
    ensures AllClean(Sanitize(text), FIELDS)
  {
    hide Pass, IsMarker, Clean, Passes;
    FieldsAreMarkers();
    PassesClean(text, [], FIELDS);
    assert [] + FIELDS == FIELDS;
  }

  lemma {:induction false} PassesIdle(s: string, fields: seq<string>)
    requires AllMarkers(fields) && AllClean(s, fields)
    ensures Passes(s, fields) == s
    decreases |fields|
  {
    hide IsMarker, Clean;
    if fields != [] {
      PassIdle(s, fields[0] + "=", 0);
      PassesIdle(s, fields[1..]);
    }
  }

  /** Sanitizing changes a text exactly when it holds an unmasked protected value. */
  lemma SanitizeChangesIff(text: string)
    ensures Sanitize(text) == text <==> AllClean(text, FIELDS)
  {
    hide Pass, IsMarker, Clean, Passes;
    FieldsAreMarkers();
    SanitizedIsClean(text);
    if AllClean(text, FIELDS) {
      PassesIdle(text, FIELDS);
    }
  }

  /** A second run changes nothing. */
  lemma SanitizeTwice(text: string)
    ensures Sanitize(Sanitize(text)) == Sanitize(text)
  {
    hide Sanitize, AllClean;
    SanitizedIsClean(text);
    SanitizeChangesIff(Sanitize(text));
  }

  // ------------------------------------------------------ one pass for all fields

  /** A protected value starts here: directly behind a word-bounded marker. */
  ghost predicate ValueAt(s: string, fields: seq<string>, i: nat) {
    exists f <- fields ::
      && |f| + 1 <= i
      && MarkedAt(s, f + "=", i - |f| - 1) && BoundedAt(s, i - |f| - 1)
  }

  lemma LowerMeaning(c: char, x: char)
    requires 'a' <= x <= 'z' || x == '_' || x == '='
    ensures Lower(c) == x <==> c == x || ('a' <= x <= 'z' && c == x - 'a' + 'A')
  {
  }

  lemma MarkedMeaning(s: string, f: string, i: nat)
    requires IsName(f)
    ensures MarkedAt(s, f + "=", i) <==>
              && i + |f| < |s| && s[i + |f|] == '='
              && (forall k :: 0 <= k < |f| ==> s[i + k] == f[k] || ('a' <= f[k] <= 'z' && s[i + k] == f[k] - 'a' + 'A'))
  {
    var m := f + "=";
    if i + |m| <= |s| {
      var low := LowerAll(s[i..i + |m|]);
      forall k | 0 <= k < |m|
        ensures low[k] == Lower(s[i + k])
        ensures low[k] == m[k] <==> s[i + k] == m[k] || ('a' <= m[k] <= 'z' && s[i + k] == m[k] - 'a' + 'A')
      {
        LowerMeaning(s[i + k], m[k]);
      }
      assert low[|f|] == m[|f|] <==> s[i + |f|] == '=';
      assert forall k :: 0 <= k < |f| ==> m[k] == f[k];
    }
  }

  /** What makes an occurrence of a field: its name in any mixture of cases, an equals sign
      behind it, and no letter, digit or underscore before it. */
  lemma OccurrenceMeaning(s: string, f: string, i: nat)
    requires IsName(f)
    ensures MarkedAt(s, f + "=", i) && BoundedAt(s, i) <==>
              && i + |f| < |s| && s[i + |f|] == '='
              && (forall k :: 0 <= k < |f| ==> s[i + k] == f[k] || ('a' <= f[k] <= 'z' && s[i + k] == f[k] - 'a' + 'A'))
              && (i > 0 ==> !('a' <= s[i - 1] <= 'z') && !('A' <= s[i - 1] <= 'Z') && !('0' <= s[i - 1] <= '9') && s[i - 1] != '_')
  {
    hide MarkedAt, LowerAll, IsName;
    MarkedMeaning(s, f, i);
  }

  /** Among the ASCII characters, the six spaces, the comma and the semicolon end a value. */
  lemma DelimiterMeaning(c: char)
    requires c as int < 128
    ensures IsDelimiter(c) <==>
              c == ' ' || c == '\t' || c == '\n' || c == '\r' || c == '\U{000B}' || c == '\U{000C}' || c == ',' || c == ';'
  {
  }

  /** The text from `i` on, read once: each protected value is replaced by the mask up to the
      next delimiter or the end, and everything else is copied. */
  ghost function Redacted(s: string, fields: seq<string>, i: nat): string
    requires i <= |s|
    decreases |s| - i
  {
    if ValueAt(s, fields, i) then MASK + After(s, fields, ValueEnd(s, i))
    else if i == |s| then ""
    else [s[i]] + Redacted(s, fields, i + 1)
  }

  /** The rest from a delimiter on. */
  ghost function After(s: string, fields: seq<string>, e: nat): string
    requires e <= |s|
    decreases |s| - e, 0
  {
    if e == |s| then "" else [s[e]] + Redacted(s, fields, e + 1)
  }

  lemma RedactedStep(s: string, fields: seq<string>, i: nat)
    requires i <= |s|
    ensures Redacted(s, fields, i)
         == if ValueAt(s, fields, i) then MASK + After(s, fields, ValueEnd(s, i))
            else if i == |s| then "" else [s[i]] + Redacted(s, fields, i + 1)
  {
    hide ValueAt, ValueEnd, After;
  }

  lemma AfterStep(s: string, fields: seq<string>, e: nat)
    requires e <= |s|
    ensures After(s, fields, e) == if e == |s| then "" else [s[e]] + Redacted(s, fields, e + 1)
  {
    hide Redacted;
  }

  lemma EndIsFirst(s: string, from: nat, e: nat)
    requires from <= e <= |s| && DelimitedAt(s, e)
    requires forall j :: from <= j < e ==> !IsDelimiter(s[j])
    ensures ValueEnd(s, from) == e
  {
    hide IsDelimiter;
  }

  /** In a clean text every value already is the mask, so reading it copies it. */
  lemma {:induction false} RedactedIdle(s: string, fields: seq<string>, i: nat)
    requires AllMarkers(fields) && AllClean(s, fields) && i <= |s|
    ensures Redacted(s, fields, i) == s[i..]
    decreases |s| - i
  {
    hide IsMarker, IsDelimiter, ValueAt, AllMarkers, AllClean, Redacted, After, MaskedAt, ValueEnd;
    RedactedStep(s, fields, i);
    if ValueAt(s, fields, i) {
      CleanValue(s, fields, i);
      MaskEnds(s, i);
      var e := i + |MASK|;
      AfterStep(s, fields, e);
      if e < |s| {
        RedactedIdle(s, fields, e + 1);
        FrontOf(s, e);
      }
      Joined(s, i, e);
    } else if i < |s| {
      RedactedIdle(s, fields, i + 1);
      FrontOf(s, i);
    }
  }

  lemma FrontOf(s: string, i: nat)
    requires i < |s|
    ensures s[i..] == [s[i]] + s[i + 1..]
  {
  }

  lemma Joined(s: string, i: nat, e: nat)
    requires i <= e <= |s|
    ensures s[i..] == s[i..e] + s[e..]
    ensures e == |s| ==> s[e..] == ""
  {
  }

  lemma CleanValue(s: string, fields: seq<string>, i: nat)
    requires AllClean(s, fields) && ValueAt(s, fields, i)
    ensures MaskedAt(s, i)
  {
    hide MarkedAt, BoundedAt, MaskedAt;
    var f :| f in fields && |f| + 1 <= i && MarkedAt(s, f + "=", i - |f| - 1) && BoundedAt(s, i - |f| - 1);
    assert Clean(s, f + "=");
  }

  lemma MaskEnds(s: string, i: nat)
    requires MaskedAt(s, i)
    ensures i + |MASK| <= |s| && ValueEnd(s, i) == i + |MASK| && s[i..i + |MASK|] == MASK
  {
    hide IsDelimiter;
    forall j | i <= j < i + |MASK| ensures !IsDelimiter(s[j]) {
      MaskChars(j - i);
      assert s[j] == s[i..i + |MASK|][j - i];
    }
    EndIsFirst(s, i, i + |MASK|);
  }

  /** Up to the masked value, values start in the masked text where they did before. */
  lemma SameValueBefore(s: string, from: nat, fields: seq<string>, i: nat)
    requires i <= from <= |s|
    ensures ValueAt(Mask(s, from), fields, i) <==> ValueAt(s, fields, i)
  {
    hide Mask, MarkedAt;
    var t := Mask(s, from);
    MaskParts(s, from);
    MaskAt(s, from, 0);
    forall f | f in fields && |f| + 1 <= i
      ensures MarkedAt(t, f + "=", i - |f| - 1) <==> MarkedAt(s, f + "=", i - |f| - 1)
      ensures BoundedAt(t, i - |f| - 1) <==> BoundedAt(s, i - |f| - 1)
    {
      var k := i - |f| - 1;
      Prefixed(t, from, k, i);
      Prefixed(s, from, k, i);
      SameMark(t, s, f + "=", k, k);
      if k > 0 {
        MaskAt(s, from, k - 1);
      }
    }
  }

  /** Behind the mask they start where they did behind the value. */
  lemma SameMarkAfter(s: string, from: nat, m: string, i: nat)
    requires 0 < from <= |s| && s[from - 1] == '=' && IsMarker(m)
    requires from + |MASK| < i <= |Mask(s, from)| && |m| <= i
    requires i - |m| > from + |MASK|
    ensures var j := i - |MASK| - from + ValueEnd(s, from);
            && j <= |s| && |m| <= j
            && (MarkedAt(Mask(s, from), m, i - |m|) <==> MarkedAt(s, m, j - |m|))
            && (BoundedAt(Mask(s, from), i - |m|) <==> BoundedAt(s, j - |m|))
  {
    hide Mask, MarkedAt, IsMarker, ValueEnd, IsWord;
    var t, e, n := Mask(s, from), ValueEnd(s, from), from + |MASK|;
    MaskParts(s, from);
    MaskAt(s, from, 0);
    var j := e + (i - n);
    Suffixed(t, n, i - |m|, i);
    Suffixed(s, e, j - |m|, j);
    SameMark(t, s, m, i - |m|, j - |m|);
    MaskAt(s, from, i - |m| - 1);
  }

  /** A marker does not reach across a delimiter. */
  lemma MarkerAcross(s: string, m: string, i: nat, d: nat)
    requires IsMarker(m) && MarkedAt(s, m, i) && i <= d < |s| && IsDelimiter(s[d])
    ensures d >= i + |m|
  {
    hide MarkedAt, IsMarker;
    if d < i + |m| - 1 {
      MarkerChars(s, m, i, d - i);
    } else if d == i + |m| - 1 {
      MarkerChars(s, m, i, |m| - 1);
    }
  }

  lemma SameValueAfter(s: string, from: nat, fields: seq<string>, i: nat)
    requires 0 < from <= |s| && s[from - 1] == '=' && AllMarkers(fields)
    requires from + |MASK| < i <= |Mask(s, from)|
    ensures var j := i - |MASK| - from + ValueEnd(s, from);
            ValueEnd(s, from) < j <= |s| && (ValueAt(Mask(s, from), fields, i) <==> ValueAt(s, fields, j))
  {
    hide Mask, MarkedAt, BoundedAt, IsMarker, IsDelimiter;
    var t, e := Mask(s, from), ValueEnd(s, from);
    var j := i - |MASK| - from + e;
    MaskAt(s, from, 0);
    if f :| f in fields && |f| + 1 <= i && MarkedAt(t, f + "=", i - |f| - 1) && BoundedAt(t, i - |f| - 1) {
      MarkerApart(s, from, f + "=", i - |f| - 1);
      SameMarkAfter(s, from, f + "=", i);
      assert j - |f| - 1 == j - |f + "="|;
      assert MarkedAt(s, f + "=", j - |f| - 1) && BoundedAt(s, j - |f| - 1);
    }
    if f :| f in fields && |f| + 1 <= j && MarkedAt(s, f + "=", j - |f| - 1) && BoundedAt(s, j - |f| - 1) {
      var k := j - |f| - 1;
      InText(s, f + "=", k);
      if k <= e {
        MarkerAcross(s, f + "=", k, e);
      }
      SameMarkAfter(s, from, f + "=", i);
      assert MarkedAt(t, f + "=", i - |f| - 1) && BoundedAt(t, i - |f| - 1);
    }
  }

  /** Two places are read alike if what follows them is. */
  lemma SameRead(s: string, t: string, fields: seq<string>, i: nat, j: nat)
    requires i <= |t| && j <= |s| && |t| - i == |s| - j && (ValueAt(t, fields, i) <==> ValueAt(s, fields, j))
    requires ValueAt(t, fields, i) ==> After(t, fields, ValueEnd(t, i)) == After(s, fields, ValueEnd(s, j))
    requires !ValueAt(t, fields, i) && i < |t| ==> t[i] == s[j] && Redacted(t, fields, i + 1) == Redacted(s, fields, j + 1)
    ensures Redacted(t, fields, i) == Redacted(s, fields, j)
  {
    hide ValueAt, ValueEnd, After, Redacted, IsDelimiter;
    RedactedStep(t, fields, i);
    RedactedStep(s, fields, j);
  }

  lemma SameRest(s: string, t: string, fields: seq<string>, d: nat, e: nat)
    requires d <= |t| && e <= |s| && |t| - d == |s| - e
    requires d < |t| ==> t[d] == s[e] && Redacted(t, fields, d + 1) == Redacted(s, fields, e + 1)
    ensures After(t, fields, d) == After(s, fields, e)
  {
    hide After, Redacted;
    AfterStep(t, fields, d);
    AfterStep(s, fields, e);
  }

  lemma {:induction false} SameAfter(s: string, from: nat, fields: seq<string>, i: nat)
    requires 0 < from <= |s| && s[from - 1] == '=' && AllMarkers(fields)
    requires from + |MASK| < i <= |Mask(s, from)|
    ensures var j := i - |MASK| - from + ValueEnd(s, from);
            ValueEnd(s, from) < j <= |s| && Redacted(Mask(s, from), fields, i) == Redacted(s, fields, j)
    decreases |Mask(s, from)| - i
  {
    hide Mask, ValueAt, IsMarker, IsDelimiter, AllMarkers, Redacted, After, ValueEnd, MASK;
    var t, shift := Mask(s, from), ValueEnd(s, from) - from - |MASK|;
    SameValueAfter(s, from, fields, i);
    MaskAt(s, from, i);
    if ValueAt(t, fields, i) {
      SameEndAfter(s, from, i);
      var d := ValueEnd(t, i);
      MaskAt(s, from, d);
      if d < |t| {
        SameAfter(s, from, fields, d + 1);
      }
      SameRest(s, t, fields, d, d + shift);
    } else if i < |t| {
      SameAfter(s, from, fields, i + 1);
    }
    SameRead(s, t, fields, i, i + shift);
  }

  lemma SameEndAfter(s: string, from: nat, i: nat)
    requires from <= |s| && from + |MASK| <= i <= |Mask(s, from)|
    ensures var shift := ValueEnd(s, from) - from - |MASK|;
            i + shift <= |s| && ValueEnd(s, i + shift) == ValueEnd(Mask(s, from), i) + shift
  {
    hide Mask, IsDelimiter;
    var t, shift := Mask(s, from), ValueEnd(s, from) - from - |MASK|;
    MaskAt(s, from, 0);
    var d := ValueEnd(t, i);
    forall k | i <= k <= d && k < |t| ensures t[k] == s[k + shift] {
      MaskAt(s, from, k);
    }
    forall k | i + shift <= k < d + shift ensures !IsDelimiter(s[k]) {
      assert s[k] == t[k - shift];
    }
    EndIsFirst(s, i + shift, d + shift);
  }

  lemma AfterMasked(s: string, from: nat, fields: seq<string>)
    requires 0 < from <= |s| && s[from - 1] == '=' && AllMarkers(fields)
    ensures var t := Mask(s, from);
            from + |MASK| <= |t| && After(t, fields, from + |MASK|) == After(s, fields, ValueEnd(s, from))
  {
    hide Mask, IsMarker, IsDelimiter, AllMarkers, Redacted, After, ValueEnd;
    var t, n := Mask(s, from), from + |MASK|;
    MaskAt(s, from, 0);
    AfterStep(t, fields, n);
    AfterStep(s, fields, ValueEnd(s, from));
    if n < |t| {
      MaskAt(s, from, n);
      SameAfter(s, from, fields, n + 1);
    }
  }

  /** Masking a value does not change what reading the whole text once yields. */
  lemma {:induction false} MaskKeepsRedacted(s: string, from: nat, fields: seq<string>, i: nat)
    requires 0 < from <= |s| && s[from - 1] == '=' && AllMarkers(fields)
    requires ValueAt(s, fields, from) && i <= from
    ensures i <= |Mask(s, from)| && Redacted(Mask(s, from), fields, i) == Redacted(s, fields, i)
    decreases from - i
  {
    hide Mask, ValueAt, IsMarker, IsDelimiter, AllMarkers, Redacted, After, ValueEnd;
    var t := Mask(s, from);
    MaskAt(s, from, 0);
    SameValueBefore(s, from, fields, i);
    RedactedStep(t, fields, i);
    RedactedStep(s, fields, i);
    if ValueAt(s, fields, i) {
      var d := ValueEnd(s, i);
      if d < from {
        SameEndBefore(s, from, i);
        AfterStep(t, fields, d);
        AfterStep(s, fields, d);
        MaskAt(s, from, d);
        MaskKeepsRedacted(s, from, fields, d + 1);
      } else {
        ReachingEnd(s, from, i);
        AfterMasked(s, from, fields);
      }
    } else {
      MaskAt(s, from, i);
      MaskKeepsRedacted(s, from, fields, i + 1);
    }
  }

  lemma SameEndBefore(s: string, from: nat, i: nat)
    requires i <= from <= |s| && ValueEnd(s, i) < from
    ensures i <= |Mask(s, from)| && ValueEnd(Mask(s, from), i) == ValueEnd(s, i)
  {
    hide Mask, IsDelimiter;
    var t, d := Mask(s, from), ValueEnd(s, i);
    MaskAt(s, from, 0);
    forall k | i <= k <= d ensures t[k] == s[k] {
      MaskAt(s, from, k);
    }
    EndIsFirst(t, i, d);
  }

  /** A value that runs up to the masked one ends with it, before and after. */
  lemma ReachingEnd(s: string, from: nat, i: nat)
    requires i <= from <= |s| && ValueEnd(s, i) >= from
    ensures ValueEnd(s, i) == ValueEnd(s, from)
    ensures i <= |Mask(s, from)| && ValueEnd(Mask(s, from), i) == from + |MASK|
  {
    hide Mask, IsDelimiter;
    var t, n := Mask(s, from), from + |MASK|;
    EndIsFirst(s, from, ValueEnd(s, i));
    MaskAt(s, from, 0);
    MaskAfterMask(s, from);
    MaskEnds(t, from);
    forall k | i <= k < from ensures t[k] == s[k] {
      MaskAt(s, from, k);
    }
    EndIsFirst(t, i, n);
  }

  lemma {:induction false} PassKeepsRedacted(s: string, f: string, cursor: nat, fields: seq<string>)
    requires AllMarkers(fields) && f in fields && cursor <= |s|
    ensures Redacted(Pass(s, f + "=", cursor), fields, 0) == Redacted(s, fields, 0)
    decreases |s| - cursor
  {
    hide Mask, MarkedAt, BoundedAt, FindMarker, IsMarker, Redacted;
    var m := f + "=";
    var found := FindMarker(s, m, cursor);
    if found.Some? {
      var start := found.value;
      MarkStart(s, m, start);
      if !BoundedAt(s, start) {
        PassKeepsRedacted(s, f, start + 1, fields);
      } else {
        var v := start + |m|;
        assert ValueAt(s, fields, v) by {
          assert v - |f| - 1 == start;
        }
        MaskKeepsRedacted(s, v, fields, 0);
        MaskAt(s, v, 0);
        PassKeepsRedacted(Mask(s, v), f, v + |MASK|, fields);
      }
    }
  }

  lemma {:induction false} PassesKeepRedacted(s: string, left: seq<string>, fields: seq<string>)
    requires AllMarkers(fields) && forall f <- left :: f in fields
    ensures Redacted(Passes(s, left), fields, 0) == Redacted(s, fields, 0)
    decreases |left|
  {
    hide IsMarker, Redacted, AllMarkers;
    if left != [] {
      assert left[0] in left;
      PassKeepsRedacted(s, left[0], 0, fields);
      PassesKeepRedacted(Pass(s, left[0] + "=", 0), left[1..], fields);
    }
  }

  /** The passes over the fields, each on the text the last one left, do together what one
      reading of the original text does: every protected value, up to the next delimiter, is
      replaced by the mask, and every other character stays. */
  lemma SanitizedOnce(text: string)
    ensures Sanitize(text) == Redacted(text, FIELDS, 0)
  {
    hide Pass, IsMarker, Clean, Passes, Redacted;
    FieldsAreMarkers();
    SanitizedIsClean(text);
    RedactedIdle(Sanitize(text), FIELDS, 0);
    PassesKeepRedacted(text, FIELDS, FIELDS);
  }

  /** The same for one field. */
  lemma PassOnce(text: string, field: string)
    requires IsMarker(field + "=")
    ensures Pass(text, field + "=", 0) == Redacted(text, [field], 0)
  {
    hide Pass, IsMarker, Redacted;
    var t := Pass(text, field + "=", 0);
    CleanAtStart(text, field + "=");
    PassCleans(text, field + "=", 0);
    RedactedIdle(t, [field], 0);
    PassKeepsRedacted(text, field, 0, [field]);
  }

  // ------------------------------------------------------------------------ counts

  /** The word-bounded markers that start before `n`. */
  ghost function Marks(s: string, m: string, n: nat): nat {
    if n == 0 then 0 else Marks(s, m, n - 1) + if MarkedAt(s, m, n - 1) && BoundedAt(s, n - 1) then 1 else 0
  }

  lemma {:induction false} NoMarks(s: string, m: string, from: nat, upTo: nat)
    requires from <= upTo && forall j: nat :: from <= j < upTo ==> !MarkedAt(s, m, j)
    ensures Marks(s, m, upTo) == Marks(s, m, from)
    decreases upTo
  {
    hide MarkedAt, BoundedAt;
    if from < upTo {
      NoMarks(s, m, from, upTo - 1);
    }
  }

  lemma {:induction false} SameMarks(s: string, t: string, m: string, n: nat)
    requires forall j: nat :: j < n ==> (MarkedAt(s, m, j) && BoundedAt(s, j) <==> MarkedAt(t, m, j) && BoundedAt(t, j))
    ensures Marks(s, m, n) == Marks(t, m, n)
  {
    hide MarkedAt, BoundedAt;
    if n > 0 {
      SameMarks(s, t, m, n - 1);
    }
  }

  /** Masking behind a marker keeps the markers up to it and has none up to the mask's end. */
  lemma MarksMasked(s: string, m: string, start: nat)
    requires IsMarker(m) && MarkedAt(s, m, start) && BoundedAt(s, start)
    ensures start + |m| <= |s|
    ensures var v := start + |m|; Marks(Mask(s, v), m, v + |MASK|) == Marks(s, m, start) + 1
  {
    hide Mask, MarkedAt, BoundedAt, IsMarker;
    MarkStart(s, m, start);
    var v := start + |m|;
    var t := Mask(s, v);
    forall j: nat | j <= start
      ensures MarkedAt(t, m, j) && BoundedAt(t, j) <==> MarkedAt(s, m, j) && BoundedAt(s, j)
    {
      KeptMark(s, v, m, j);
    }
    SameMarks(s, t, m, start);
    forall j: nat | start < j < v + |MASK|
      ensures !MarkedAt(t, m, j)
    {
      if MarkedAt(t, m, j) {
        MarkerApart(s, v, m, j);
      }
    }
    NoMarks(t, m, start + 1, v + |MASK|);
  }

  lemma KeptMark(s: string, from: nat, m: string, j: nat)
    requires j + |m| <= from <= |s|
    ensures MarkedAt(Mask(s, from), m, j) && BoundedAt(Mask(s, from), j) <==> MarkedAt(s, m, j) && BoundedAt(s, j)
  {
    hide Mask, MarkedAt;
    var t := Mask(s, from);
    MaskParts(s, from);
    MaskAt(s, from, 0);
    Prefixed(t, from, j, j + |m|);
    Prefixed(s, from, j, j + |m|);
    SameMark(t, s, m, j, j);
    if j > 0 {
      MaskAt(s, from, j - 1);
    }
  }

  /** The values masked by the passes: each pass counts the markers its field then has. */
  ghost function Masked(s: string, fields: seq<string>): nat
    decreases |fields|
  {
    if fields == [] then 0
    else
      var t := Pass(s, fields[0] + "=", 0);
      Marks(t, fields[0] + "=", |t|) + Masked(t, fields[1..])
  }

  /** Masks the values of one field; the count is that of its markers. */
  method SanitizeField(text: string, field: string) returns (result: string, count: nat)
    requires IsMarker(field + "=")
    ensures result == Pass(text, field + "=", 0) && result == Redacted(text, [field], 0)
    ensures count == Marks(result, field + "=", |result|)
    ensures count == 0 ==> result == text
  {
    hide Mask, MarkedAt, BoundedAt, FindMarker, IsMarker, ValueEnd, Marks, Redacted;
    var marker := field + "=";
    result, count := text, 0;
    var cursor: nat := 0;
    MarkerNotEmpty(marker);
    PassOnce(text, field);
    MarksNone(text, marker);
    var found := FindMarker(result, marker, cursor);
    while found.Some?
      invariant cursor <= |result| && found == FindMarker(result, marker, cursor)
      invariant Pass(result, marker, cursor) == Pass(text, marker, 0)
      invariant count == Marks(result, marker, cursor)
      invariant count == 0 ==> result == text
      decreases |result| - cursor
    {
      var start := found.value;
      MarkStart(result, marker, start);
      NoMarks(result, marker, cursor, start);
      if !BoundedAt(result, start) {
        MarksNext(result, marker, start);
        cursor := start + 1;
      } else {
        var valueStart := start + |marker|;
        MaskAt(result, valueStart, 0);
        MarksMasked(result, marker, start);
        result := Mask(result, valueStart);
        count := count + 1;
        cursor := valueStart + |MASK|;
      }
      found := FindMarker(result, marker, cursor);
    }
    NoMarks(result, marker, cursor, |result|);
  }

  lemma MarksNone(s: string, m: string)
    ensures Marks(s, m, 0) == 0
  {
  }

  lemma MarksNext(s: string, m: string, i: nat)
    requires !BoundedAt(s, i)
    ensures Marks(s, m, i + 1) == Marks(s, m, i)
  {
  }

  lemma MarkerNotEmpty(m: string)
    requires IsMarker(m)
    ensures m != ""
  {
  }

  lemma SanitizeIs(text: string)
    ensures Sanitize(text) == Passes(text, FIELDS)
  {
    hide Passes;
  }

  /** The sanitized text is the original with every protected value replaced, and nothing
      else; the count adds up the fields' markers. */
  method SanitizeText(text: string) returns (result: string, count: nat)
    ensures result == Sanitize(text) == Redacted(text, FIELDS, 0)
    ensures count == Masked(text, FIELDS)
    ensures count == 0 ==> result == text
  {
    hide Pass, IsMarker, Redacted, Marks, Sanitize, FIELDS, MASK;
    result, count := text, 0;
    FieldsAreMarkers();
    SanitizedOnce(text);
    SanitizeIs(text);
    assert FIELDS[0..] == FIELDS;
    var k := 0;
    while k < |FIELDS|
      invariant k <= |FIELDS|
      invariant Passes(result, FIELDS[k..]) == Passes(text, FIELDS)
      invariant count + Masked(result, FIELDS[k..]) == Masked(text, FIELDS)
      invariant count == 0 ==> result == text
    {
      assert FIELDS[k] in FIELDS;
      assert FIELDS[k..][0] == FIELDS[k] && FIELDS[k..][1..] == FIELDS[k + 1..];
      var n;
      result, n := SanitizeField(result, FIELDS[k]);
      count := count + n;
      k := k + 1;
    }
    assert FIELDS[k..] == [];
  }
}
