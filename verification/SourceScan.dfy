/** Finding the includes of a source text (src/build_provenance.rs). */
module SourceScan {
  // A line scanner that gives up on anything unusual, against a reading that removes block
  // comments character by character.

  import opened Basics

  predicate IsSpace(c: char) {
    c == ' ' || c == '\t' || c == '\n' || c == '\r' || c == '\U{000B}' || c == '\U{000C}'
  }

  predicate AllSpace(s: string) {
    forall i :: 0 <= i < |s| ==> IsSpace(s[i])
  }

  function TrimStart(s: string): string {
    if s != "" && IsSpace(s[0]) then TrimStart(s[1..]) else s
  }

  function TrimEnd(s: string): string {
    if s != "" && IsSpace(s[|s| - 1]) then TrimEnd(s[..|s| - 1]) else s
  }

  function Trim(s: string): string {
    TrimEnd(TrimStart(s))
  }

  /** Where two characters first stand next to each other. */
  function FindPair(s: string, a: char, b: char): (k: Option<nat>)
    ensures k.Some? ==> PairAt(s, k.value, a, b) && forall i: nat :: i < k.value ==> !PairAt(s, i, a, b)
    ensures k.None? ==> forall i: nat :: !PairAt(s, i, a, b)
  {
    if |s| < 2 then None
    else if s[0] == a && s[1] == b then Some(0)
    else
      var k := FindPair(s[1..], a, b);
      assert forall i: nat :: PairAt(s, i, a, b) ==> i > 0 && PairAt(s[1..], i - 1, a, b);
      if k.Some? then Some(k.value + 1) else None
  }

  predicate PairAt(s: string, i: nat, a: char, b: char) {
    i + 2 <= |s| && s[i] == a && s[i + 1] == b
  }

  predicate HasPair(s: string, a: char, b: char) {
    FindPair(s, a, b).Some?
  }

  predicate Opens(s: string) {
    |s| >= 2 && s[0] == '/' && s[1] == '*'
  }

  predicate Closes(s: string) {
    |s| >= 2 && s[0] == '*' && s[1] == '/'
  }

  predicate EndsClosed(s: string) {
    |s| >= 2 && s[|s| - 2] == '*' && s[|s| - 1] == '/'
  }

  // ------------------------------------------------------- character by character

  /** The text without its block comments; line ends inside them stay. */
  function Strip(s: string, inside: bool): string {
    if s == "" then ""
    else if !inside && Opens(s) then Strip(s[2..], true)
    else if inside && Closes(s) then Strip(s[2..], false)
    else (if inside && s[0] != '\n' then "" else [s[0]]) + Strip(s[1..], inside)
  }

  /** Whether a comment is open after the text. */
  predicate InsideAfter(s: string, inside: bool) {
    if s == "" then inside
    else if !inside && Opens(s) then InsideAfter(s[2..], true)
    else if inside && Closes(s) then InsideAfter(s[2..], false)
    else InsideAfter(s[1..], inside)
  }

  /** Length of the first line. */
  function LineLength(s: string): (n: nat)
    ensures n <= |s| && (n < |s| ==> s[n] == '\n')
    ensures forall i :: 0 <= i < n ==> s[i] != '\n'
  {
    if s == "" || s[0] == '\n' then 0 else 1 + LineLength(s[1..])
  }

  function Lines(s: string): seq<string> {
    if s == "" then []
    else
      var n := LineLength(s);
      [s[..n]] + (if n == |s| then [] else Lines(s[n + 1..]))
  }

  predicate OneLine(s: string) {
    forall i :: 0 <= i < |s| ==> s[i] != '\n'
  }

  /** No comment mark spans a line end, so lines can be stripped one at a time. */
  lemma {:induction false} StripLine(s: string, rest: string, inside: bool)
    requires OneLine(s)
    ensures Strip(s + "\n" + rest, inside) == Strip(s, inside) + "\n" + Strip(rest, InsideAfter(s, inside))
    decreases |s|
  {
    hide Lines;
    var all := s + "\n" + rest;
    if s == "" {
      assert all[1..] == rest;
    } else if (!inside && Opens(s)) || (inside && Closes(s)) {
      assert all[2..] == s[2..] + "\n" + rest;
      StripLine(s[2..], rest, !inside);
    } else {
      assert all[1..] == s[1..] + "\n" + rest;
      StripLine(s[1..], rest, inside);
    }
  }

  lemma {:induction false} InsideLine(s: string, rest: string, inside: bool)
    requires OneLine(s)
    ensures InsideAfter(s + "\n" + rest, inside) == InsideAfter(rest, InsideAfter(s, inside))
    decreases |s|
  {
    hide Strip, Lines;
    var all := s + "\n" + rest;
    if s == "" {
      assert all[1..] == rest;
    } else if (!inside && Opens(s)) || (inside && Closes(s)) {
      assert all[2..] == s[2..] + "\n" + rest;
      InsideLine(s[2..], rest, !inside);
    } else {
      assert all[1..] == s[1..] + "\n" + rest;
      InsideLine(s[1..], rest, inside);
    }
  }

  lemma {:induction false} StripAlone(s: string, inside: bool)
    requires OneLine(s)
    ensures OneLine(Strip(s, inside))
    decreases |s|
  {
    if s == "" {
    } else if (!inside && Opens(s)) || (inside && Closes(s)) {
      StripAlone(s[2..], !inside);
    } else {
      StripAlone(s[1..], inside);
    }
  }

  lemma {:induction false} LineLengthIs(s: string, rest: string)
    requires OneLine(s)
    ensures LineLength(s + "\n" + rest) == |s| && LineLength(s) == |s|
  {
    if s != "" {
      assert (s + "\n" + rest)[1..] == s[1..] + "\n" + rest;
      LineLengthIs(s[1..], rest);
    } else {
      assert (s + "\n" + rest)[0] == '\n';
    }
  }

  lemma LinesCons(s: string, rest: string)
    requires OneLine(s)
    ensures Lines(s + "\n" + rest) == [s] + Lines(rest)
    ensures s != "" ==> Lines(s) == [s]
  {
    LineLengthIs(s, rest);
    assert (s + "\n" + rest)[..|s|] == s;
    assert (s + "\n" + rest)[|s| + 1..] == rest;
    assert s[..|s|] == s;
  }

  // ------------------------------------------------------------- one line, stripped

  lemma {:induction false} StripOutside(s: string)
    requires !HasPair(s, '/', '*')
    ensures Strip(s, false) == s && !InsideAfter(s, false)
  {
    if s != "" {
      StripOutside(s[1..]);
    }
  }

  lemma {:induction false} StripInside(s: string)
    requires !HasPair(s, '*', '/') && OneLine(s)
    ensures Strip(s, true) == "" && InsideAfter(s, true)
  {
    if s != "" {
      StripInside(s[1..]);
    }
  }

  lemma {:induction false} StripToClose(s: string, k: nat)
    requires FindPair(s, '*', '/') == Some(k) && OneLine(s)
    ensures Strip(s, true) == Strip(s[k + 2..], false) && InsideAfter(s, true) == InsideAfter(s[k + 2..], false)
  {
    if k > 0 {
      assert !Closes(s);
      StripToClose(s[1..], k - 1);
      assert s[1..][k + 1..] == s[k + 2..];
    }
  }

  lemma {:induction false} StripToOpen(spaces: string, rest: string)
    requires AllSpace(spaces)
    ensures Strip(spaces + "/*" + rest, false) == spaces + Strip(rest, true)
    ensures InsideAfter(spaces + "/*" + rest, false) == InsideAfter(rest, true)
  {
    var all := spaces + "/*" + rest;
    if spaces == "" {
      assert all[2..] == rest;
    } else {
      assert all[1..] == spaces[1..] + "/*" + rest;
      StripToOpen(spaces[1..], rest);
    }
  }

  // ------------------------------------------------------------------- trimming

  lemma {:induction false} TrimStartSplit(s: string) returns (spaces: string)
    ensures s == spaces + TrimStart(s) && AllSpace(spaces)
    ensures TrimStart(s) != "" ==> !IsSpace(TrimStart(s)[0])
  {
    if s != "" && IsSpace(s[0]) {
      var rest := TrimStartSplit(s[1..]);
      spaces := [s[0]] + rest;
    } else {
      spaces := "";
    }
  }

  lemma {:induction false} TrimEndSplit(s: string) returns (spaces: string)
    ensures s == TrimEnd(s) + spaces && AllSpace(spaces)
    ensures TrimEnd(s) != "" ==> !IsSpace(TrimEnd(s)[|TrimEnd(s)| - 1])
  {
    if s != "" && IsSpace(s[|s| - 1]) {
      var rest := TrimEndSplit(s[..|s| - 1]);
      spaces := rest + [s[|s| - 1]];
    } else {
      spaces := "";
    }
  }

  /** A line is its trimmed text between spaces. */
  lemma TrimSplit(s: string) returns (before: string, after: string)
    ensures s == before + Trim(s) + after && AllSpace(before) && AllSpace(after)
    ensures Trim(s) != "" ==> !IsSpace(Trim(s)[|Trim(s)| - 1])
  {
    before := TrimStartSplit(s);
    after := TrimEndSplit(TrimStart(s));
  }

  lemma {:induction false} TrimOfSpace(s: string)
    requires AllSpace(s)
    ensures Trim(s) == ""
  {
    if s != "" {
      TrimOfSpace(s[1..]);
    }
  }

  lemma SpaceAround(before: string, t: string, after: string, i: nat)
    requires AllSpace(before) && AllSpace(after) && i < |before + t + after|
    ensures var s := before + t + after;
            if |before| <= i < |before| + |t| then s[i] == t[i - |before|] else IsSpace(s[i])
  {
  }

  lemma PairTrimmed(before: string, t: string, after: string, a: char, b: char, i: nat)
    requires AllSpace(before) && AllSpace(after) && !IsSpace(a) && !IsSpace(b)
    ensures PairAt(before + t + after, i, a, b) <==> i >= |before| && PairAt(t, i - |before|, a, b)
  {
    hide IsSpace;
    if i + 2 <= |before + t + after| {
      SpaceAround(before, t, after, i);
      SpaceAround(before, t, after, i + 1);
    }
  }

  /** Comment marks contain no space, so trimming keeps them where they are. */
  lemma FindPairTrimmed(s: string, before: string, t: string, after: string, a: char, b: char)
    requires s == before + t + after
    requires AllSpace(before) && AllSpace(after) && !IsSpace(a) && !IsSpace(b)
    ensures FindPair(s, a, b) == var k := FindPair(t, a, b); if k.Some? then Some(|before| + k.value) else None
  {
    hide AllSpace, IsSpace, FindPair, PairAt;
    PairsTrimmed(s, before, t, after, a, b);
    Shifted(s, t, |before|, a, b);
  }

  lemma PairsTrimmed(s: string, before: string, t: string, after: string, a: char, b: char)
    requires s == before + t + after
    requires AllSpace(before) && AllSpace(after) && !IsSpace(a) && !IsSpace(b)
    ensures forall i: nat {:trigger PairAt(s, i, a, b)} ::
              PairAt(s, i, a, b) <==> i >= |before| && PairAt(t, i - |before|, a, b)
  {
    hide AllSpace, IsSpace, PairAt;
    forall i: nat ensures PairAt(s, i, a, b) <==> i >= |before| && PairAt(t, i - |before|, a, b) {
      PairTrimmed(before, t, after, a, b, i);
    }
  }

  lemma Shifted(s: string, t: string, n: nat, a: char, b: char)
    requires forall i: nat {:trigger PairAt(s, i, a, b)} ::
               PairAt(s, i, a, b) <==> i >= n && PairAt(t, i - n, a, b)
    ensures FindPair(s, a, b) == var k := FindPair(t, a, b); if k.Some? then Some(n + k.value) else None
  {
    hide PairAt, FindPair;
    var k, found := FindPair(t, a, b), FindPair(s, a, b);
    if k.Some? {
      assert PairAt(t, n + k.value - n, a, b);
      assert PairAt(s, n + k.value, a, b);
    }
    if found.Some? {
      assert PairAt(t, found.value - n, a, b);
    }
  }

  // ------------------------------------------------------------------ directives

  /** What a line without comments means for the closure of a build. */
  datatype Directive = Plain | Define | Include(name: string) | Unproved

  predicate HasChar(s: string, c: char) {
    c in s
  }

  function StripPrefix(s: string, prefix: string): Option<string> {
    if |prefix| <= |s| && s[..|prefix|] == prefix then Some(s[|prefix|..]) else None
  }

  function WordLength(s: string): (n: nat)
    ensures n <= |s|
  {
    if s == "" || IsSpace(s[0]) then 0 else 1 + WordLength(s[1..])
  }

  function Words(s: string): seq<string>
    decreases |s|
  {
    if s == "" then []
    else if IsSpace(s[0]) then Words(s[1..])
    else
      var n := WordLength(s);
      [s[..n]] + Words(s[n..])
  }

  predicate IsDigit(c: char) {
    '0' <= c <= '9'
  }

  predicate IsLetter(c: char) {
    'a' <= c <= 'z' || 'A' <= c <= 'Z'
  }

  predicate IsName(s: string) {
    forall i :: 0 <= i < |s| ==> s[i] == '_' || IsLetter(s[i]) || (i > 0 && IsDigit(s[i]))
  }

  predicate IsNumber(s: string) {
    s != "" && forall i :: 0 <= i < |s| ==> IsDigit(s[i])
  }

  /** A numeric definition changes no include. */
  predicate IsPlainDefine(s: string) {
    && StripPrefix(s, "#define ").Some?
    && var words := Words(StripPrefix(s, "#define ").value);
    |words| == 2 && IsName(words[0]) && IsNumber(words[1])
  }

  function LiteralInclude(s: string): Option<string> {
    var value := StripPrefix(s, "#include \"");
    if value.Some? && value.value != "" && value.value[|value.value| - 1] == '"' then
      var name := value.value[..|value.value| - 1];
      if name != "" && !HasChar(name, '"') && !HasChar(name, '#') then Some(name) else None
    else None
  }

  function Classify(line: string): Directive {
    if !HasChar(line, '#') then Plain
    else if IsPlainDefine(line) then Define
    else
      var name := LiteralInclude(line);
      if name.Some? then Include(name.value) else Unproved
  }

  /** An include names a file between quotes and nothing else stands on its line. */
  lemma IncludeIff(line: string, name: string)
    ensures Classify(line) == Include(name)
       <==> line == "#include \"" + name + "\"" && name != "" && '"' !in name && '#' !in name
  {
    hide IsPlainDefine;
    var head := "#include \"";
    NotDefine(line);
    if LiteralInclude(line).Some? {
      var value := StripPrefix(line, head).value;
      assert value == value[..|value| - 1] + "\"";
      assert line == head + value;
      assert line[0] == '#';
    }
    if line == head + name + "\"" {
      assert line[..|head|] == head && line[|head|..] == name + "\"";
      assert (name + "\"")[..|name|] == name;
      assert line[0] == '#';
    }
  }

  lemma NotDefine(line: string)
    ensures StripPrefix(line, "#include \"").Some? ==> !IsPlainDefine(line)
  {
    PrefixAt(line, "#define ", 1);
    PrefixAt(line, "#include \"", 1);
  }

  lemma PrefixAt(s: string, prefix: string, k: nat)
    requires k < |prefix|
    ensures StripPrefix(s, prefix).Some? ==> k < |s| && s[k] == prefix[k]
  {
    if StripPrefix(s, prefix).Some? {
      assert s[..|prefix|][k] == s[k];
    }
  }

  ghost predicate Solid(s: string) {
    s != "" && forall i :: 0 <= i < |s| ==> !IsSpace(s[i])
  }

  lemma {:induction false} WordLengthIs(word: string, rest: string)
    requires forall i :: 0 <= i < |word| ==> !IsSpace(word[i])
    requires rest != "" ==> IsSpace(rest[0])
    ensures WordLength(word + rest) == |word|
  {
    if word != "" {
      assert (word + rest)[1..] == word[1..] + rest;
      WordLengthIs(word[1..], rest);
    } else {
      assert word + rest == rest;
    }
  }

  lemma {:induction false} WordsCons(spaces: string, word: string, rest: string)
    requires AllSpace(spaces) && Solid(word) && (rest != "" ==> IsSpace(rest[0]))
    ensures Words(spaces + word + rest) == [word] + Words(rest)
    decreases |spaces|
  {
    var all := spaces + word + rest;
    if spaces != "" {
      assert all[1..] == spaces[1..] + word + rest;
      assert all[0] == spaces[0];
      WordsCons(spaces[1..], word, rest);
    } else {
      assert all == word + rest && all[0] == word[0];
      WordLengthIs(word, rest);
      assert all[..|word|] == word && all[|word|..] == rest;
    }
  }

  lemma {:induction false} NoWordsIff(s: string)
    ensures Words(s) == [] <==> AllSpace(s)
    decreases |s|
  {
    if s != "" && IsSpace(s[0]) {
      NoWordsIff(s[1..]);
      assert s == [s[0]] + s[1..];
    }
  }

  lemma {:induction false} WordIsSolid(s: string)
    ensures var n := WordLength(s);
            (forall i :: 0 <= i < n ==> !IsSpace(s[i])) && (n < |s| ==> IsSpace(s[n]))
  {
    if s != "" && !IsSpace(s[0]) {
      WordIsSolid(s[1..]);
    }
  }

  lemma {:induction false} FirstWord(s: string) returns (spaces: string, word: string, rest: string)
    requires Words(s) != []
    ensures s == spaces + word + rest && AllSpace(spaces) && Solid(word) && (rest != "" ==> IsSpace(rest[0]))
    ensures Words(s) == [word] + Words(rest)
    decreases |s|
  {
    if IsSpace(s[0]) {
      spaces, word, rest := FirstWord(s[1..]);
      spaces := [s[0]] + spaces;
    } else {
      WordIsSolid(s);
      var n := WordLength(s);
      spaces, word, rest := "", s[..n], s[n..];
    }
  }

  /** A name and a number, each once, between spaces. */
  ghost predicate IsNumberDefinition(s: string) {
    exists a, name, b, number, c ::
      && s == NumberDefinition(a, name, b, number, c)
      && AllSpace(a) && AllSpace(b) && AllSpace(c) && b != ""
      && name != "" && IsName(name) && IsNumber(number)
  }

  function NumberDefinition(a: string, name: string, b: string, number: string, c: string): string {
    a + name + b + number + c
  }

  lemma NamesAreSolid(name: string)
    ensures name != "" && IsName(name) ==> Solid(name)
    ensures IsNumber(name) ==> Solid(name)
  {
  }

  lemma TwoWordsIff(s: string)
    ensures |Words(s)| == 2 && IsName(Words(s)[0]) && IsNumber(Words(s)[1]) <==> IsNumberDefinition(s)
  {
    hide IsName, IsNumber, Words, IsNumberDefinition;
    if |Words(s)| == 2 && IsName(Words(s)[0]) && IsNumber(Words(s)[1]) {
      TwoWordsDefine(s);
    }
    if IsNumberDefinition(s) {
      DefineTwoWords(s);
    }
  }

  lemma TwoWordsDefine(s: string)
    requires |Words(s)| == 2 && IsName(Words(s)[0]) && IsNumber(Words(s)[1])
    ensures IsNumberDefinition(s)
  {
    hide IsSpace, IsName, IsNumber, Solid, AllSpace, Words;
    var a, name, rest := FirstWord(s);
    assert ([name] + Words(rest))[0] == name && ([name] + Words(rest))[1] == Words(rest)[0];
    var b, number, c := FirstWord(rest);
    NoWordsIff(c);
    SomeSpace(b, number, c);
    SolidNotEmpty(name);
    assert s == NumberDefinition(a, name, b, number, c);
  }

  lemma DefineTwoWords(s: string)
    requires IsNumberDefinition(s)
    ensures |Words(s)| == 2 && IsName(Words(s)[0]) && IsNumber(Words(s)[1])
  {
    hide IsSpace, IsName, IsNumber, Solid, AllSpace, Words, NumberDefinition;
    var a, name, b, number, c :| s == NumberDefinition(a, name, b, number, c) && AllSpace(a) && AllSpace(b) && AllSpace(c)
                                 && b != "" && name != "" && IsName(name) && IsNumber(number);
    NamesAreSolid(name);
    NamesAreSolid(number);
    DefinitionWords(a, name, b, number, c);
  }

  lemma DefinitionWords(a: string, name: string, b: string, number: string, c: string)
    requires AllSpace(a) && AllSpace(b) && AllSpace(c) && b != "" && Solid(name) && Solid(number)
    ensures Words(NumberDefinition(a, name, b, number, c)) == [name, number]
  {
    hide IsSpace, Solid, AllSpace, Words;
    var rest := b + number + c;
    Grouped(a, name, b, number, c);
    StartsWithSpace(b, number, c);
    WordsCons(a, name, rest);
    if c != "" {
      SpaceFirst(c, "");
      assert c + "" == c;
    }
    WordsCons(b, number, c);
    NoWordsIff(c);
    assert [name] + ([number] + []) == [name, number];
  }

  lemma Grouped(a: string, name: string, b: string, number: string, c: string)
    ensures NumberDefinition(a, name, b, number, c) == a + name + (b + number + c)
  {
  }

  lemma StartsWithSpace(b: string, number: string, c: string)
    requires AllSpace(b) && b != ""
    ensures IsSpace((b + number + c)[0])
  {
    assert (b + number + c)[0] == b[0];
  }

  lemma SomeSpace(b: string, number: string, c: string)
    requires Solid(number) && (b + number + c != "" ==> IsSpace((b + number + c)[0]))
    ensures b != ""
  {
    var all := b + number + c;
    assert all[|b|] == number[0];
  }

  lemma SolidNotEmpty(s: string)
    requires Solid(s)
    ensures s != ""
  {
  }

  lemma SpaceFirst(b: string, rest: string)
    requires AllSpace(b)
    ensures b != "" ==> (b + rest)[0] == b[0] && IsSpace(b[0])
  {
  }

  /** A definition that may be skipped gives a name a number. */
  lemma DefineIff(line: string)
    ensures Classify(line) == Define <==> exists rest :: line == "#define " + rest && IsNumberDefinition(rest)
  {
    hide Words, IsNumberDefinition, IsName, IsNumber, LiteralInclude;
    var head := "#define ";
    if IsPlainDefine(line) {
      var rest := line[|head|..];
      assert line == head + rest;
      TwoWordsIff(rest);
    }
    if rest :| line == head + rest && IsNumberDefinition(rest) {
      assert line[..|head|] == head && line[|head|..] == rest;
      assert line[0] == '#';
      TwoWordsIff(rest);
    }
  }

  /** The names included by lines that contain no comments. */
  function Included(lines: seq<string>): seq<string> {
    if lines == [] then []
    else
      var d := Classify(Trim(lines[0]));
      (if d.Include? then [d.name] else []) + Included(lines[1..])
  }

  /** No line has a directive that could change the closure unseen. */
  predicate Proven(lines: seq<string>) {
    forall i :: 0 <= i < |lines| ==> Classify(Trim(lines[i])) != Unproved
  }

  predicate LexicallyPlain(text: string) {
    forall i :: 0 <= i < |text| ==> text[i] != '\\' && text[i] != '\'' && text[i] != '\0' && (text[i] as int) < 128
  }

  // --------------------------------------------------------------------- scanner

  /** What the scanner refuses in the part of a comment that a line holds. */
  predicate CommentOk(body: string) {
    && !HasChar(body, '#') && !HasChar(body, '"') && !HasPair(body, '/', '*')
    && (HasPair(body, '*', '/') ==> Trim(body[FindPair(body, '*', '/').value + 2..]) == "")
  }

  datatype LineScan = LineScan(fine: bool, inside: bool, names: seq<string>)

  function ScanLine(raw: string, inside: bool): LineScan {
    var line := Trim(raw);
    if inside || Opens(line) then
      var body := if inside then line else line[2..];
      LineScan(CommentOk(body), !EndsClosed(body), [])
    else if HasPair(line, '/', '*') || HasPair(line, '*', '/') then LineScan(false, false, [])
    else
      match Classify(line)
      case Include(name) => LineScan(true, false, [name])
      case Unproved => LineScan(false, false, [])
      case _ => LineScan(true, false, [])
  }

  lemma TrimEmpty(s: string)
    requires Trim(s) == ""
    ensures AllSpace(s)
  {
    var before, after := TrimSplit(s);
    assert s == before + after;
  }

  lemma SpaceHasNoPair(s: string, a: char, b: char)
    requires AllSpace(s) && !IsSpace(a)
    ensures !HasPair(s, a, b)
  {
  }

  lemma ClosedAtEnd(body: string)
    requires body != "" ==> !IsSpace(body[|body| - 1])
    requires HasPair(body, '*', '/') ==> Trim(body[FindPair(body, '*', '/').value + 2..]) == ""
    ensures HasPair(body, '*', '/') ==> FindPair(body, '*', '/') == Some(|body| - 2)
    ensures EndsClosed(body) <==> HasPair(body, '*', '/')
  {
    hide Trim, FindPair;
    if EndsClosed(body) {
      assert PairAt(body, |body| - 2, '*', '/');
    }
    var k := FindPair(body, '*', '/');
    if k.Some? {
      var rest := body[k.value + 2..];
      assert rest != "" ==> rest[|rest| - 1] == body[|body| - 1];
      TrimEmpty(rest);
    }
  }

  /** The rest of a comment line leaves nothing but space. */
  lemma CommentRest(body: string, after: string)
    requires OneLine(body + after) && AllSpace(after)
    requires body != "" ==> !IsSpace(body[|body| - 1])
    requires HasPair(body, '*', '/') ==> Trim(body[FindPair(body, '*', '/').value + 2..]) == ""
    ensures AllSpace(Strip(body + after, true)) && InsideAfter(body + after, true) == !EndsClosed(body)
  {
    hide Strip, InsideAfter, FindPair, Trim;
    ClosedAtEnd(body);
    assert body + after == "" + body + after;
    FindPairTrimmed(body + after, "", body, after, '*', '/');
    if HasPair(body, '*', '/') {
      StripToClose(body + after, |body| - 2);
      assert (body + after)[|body|..] == after;
      SpaceHasNoPair(after, '/', '*');
      StripOutside(after);
    } else {
      StripInside(body + after);
    }
  }

  /** A line inside a comment, with its leading space. */
  lemma CommentLine(raw: string, before: string, after: string)
    requires OneLine(raw) && raw == before + Trim(raw) + after && AllSpace(before) && AllSpace(after)
    requires Trim(raw) != "" ==> !IsSpace(Trim(raw)[|Trim(raw)| - 1])
    requires CommentOk(Trim(raw))
    ensures AllSpace(Strip(raw, true)) && InsideAfter(raw, true) == !EndsClosed(Trim(raw))
  {
    hide Strip, InsideAfter, FindPair, Trim;
    var t := Trim(raw);
    ClosedAtEnd(t);
    FindPairTrimmed(raw, before, t, after, '*', '/');
    if HasPair(t, '*', '/') {
      StripToClose(raw, |before| + |t| - 2);
      assert raw[|before| + |t|..] == after;
      SpaceHasNoPair(after, '/', '*');
      StripOutside(after);
    } else {
      StripInside(raw);
    }
  }

  /** One scanned line and the same line stripped agree: comment lines strip to space, other
      lines to themselves, and both leave the same comment state. */
  lemma LineAgrees(raw: string, inside: bool)
    requires OneLine(raw) && ScanLine(raw, inside).fine
    ensures ScanLine(raw, inside).inside == InsideAfter(raw, inside)
    ensures Classify(Trim(Strip(raw, inside))) != Unproved
    ensures ScanLine(raw, inside).names == var d := Classify(Trim(Strip(raw, inside))); if d.Include? then [d.name] else []
  {
    hide Strip, InsideAfter, FindPair, Trim, IsPlainDefine, LiteralInclude;
    var line := Trim(raw);
    var before, after := TrimSplit(raw);
    if inside {
      CommentLine(raw, before, after);
      TrimOfSpace(Strip(raw, true));
    } else if Opens(line) {
      var body := line[2..];
      assert raw == before + "/*" + (body + after);
      assert raw[|before| + 2..] == body + after;
      CommentRest(body, after);
      StripToOpen(before, body + after);
      TrimOfSpace(Strip(raw, false));
    } else {
      FindPairTrimmed(raw, before, line, after, '/', '*');
      StripOutside(raw);
    }
  }

  lemma StripFirst(rest: string, inside: bool)
    requires rest != ""
    ensures var n := LineLength(rest);
            var line := rest[..n];
            && OneLine(line)
            && (n < |rest| ==>
                  && Lines(Strip(rest, inside)) == [Strip(line, inside)] + Lines(Strip(rest[n + 1..], InsideAfter(line, inside)))
                  && InsideAfter(rest, inside) == InsideAfter(rest[n + 1..], InsideAfter(line, inside)))
            && (n == |rest| ==>
                  && line == rest
                  && (Lines(Strip(rest, inside)) == [Strip(line, inside)]
                      || (Strip(line, inside) == "" && Lines(Strip(rest, inside)) == [])))
  {
    hide Strip, InsideAfter, Lines;
    var n := LineLength(rest);
    var line := rest[..n];
    StripAlone(line, inside);
    if n < |rest| {
      var tail := rest[n + 1..];
      assert rest == line + "\n" + tail;
      StripLine(line, tail, inside);
      InsideLine(line, tail, inside);
      LinesCons(Strip(line, inside), Strip(tail, InsideAfter(line, inside)));
    } else {
      assert line == rest;
      LinesCons(Strip(line, inside), "");
      NoLines();
    }
  }

  lemma NoLines()
    ensures Lines("") == [] && Included([]) == [] && Proven([]) && Strip("", false) == Strip("", true) == ""
    ensures !InsideAfter("", false) && InsideAfter("", true) && Trim("") == ""
  {
  }

  lemma IncludedCons(line: string, lines: seq<string>)
    ensures Included([line] + lines) ==
            (var d := Classify(Trim(line)); if d.Include? then [d.name] else []) + Included(lines)
    ensures Proven([line] + lines) <==> Classify(Trim(line)) != Unproved && Proven(lines)
  {
    hide Classify, Trim;
    assert ([line] + lines)[1..] == lines;
    if Proven([line] + lines) {
      assert ([line] + lines)[0] == line;
      forall i | 0 <= i < |lines| ensures Classify(Trim(lines[i])) != Unproved {
        assert ([line] + lines)[i + 1] == lines[i];
      }
    }
  }

  /** Scanning one more line advances the character reading by that line. */
  lemma ScanAdvances(rest: string, inside: bool)
    requires rest != "" && ScanLine(rest[..LineLength(rest)], inside).fine
    ensures var n := LineLength(rest);
            var scan := ScanLine(rest[..n], inside);
            var next := if n == |rest| then "" else rest[n + 1..];
            && Included(Lines(Strip(rest, inside))) == scan.names + Included(Lines(Strip(next, scan.inside)))
            && (Proven(Lines(Strip(rest, inside))) <==> Proven(Lines(Strip(next, scan.inside))))
            && InsideAfter(rest, inside) == InsideAfter(next, scan.inside)
  {
    hide Strip, InsideAfter, Lines, Included, Proven, ScanLine, LineLength, OneLine, Classify, Trim;
    var n := LineLength(rest);
    var line, next := rest[..n], if n == |rest| then "" else rest[n + 1..];
    var scan := ScanLine(line, inside);
    StripFirst(rest, inside);
    LineAgrees(line, inside);
    NoLines();
    IncludedCons(Strip(line, inside), Lines(Strip(next, scan.inside)));
    BlankIsPlain();
    if n == |rest| {
      EndOfText(scan.inside);
      assert [Strip(line, inside)] + [] == [Strip(line, inside)];
    }
  }

  lemma BlankIsPlain()
    ensures Classify("") == Plain
  {
  }

  lemma EndOfText(inside: bool)
    ensures Strip("", inside) == "" && InsideAfter("", inside) == inside
  {
  }

  // -------------------------------------------------------- which texts are taken

  /** Where the first character that is no space stands. */
  function Indent(s: string): (n: nat)
    ensures n <= |s| && (forall i :: 0 <= i < n ==> IsSpace(s[i])) && (n < |s| ==> !IsSpace(s[n]))
  {
    if s == "" || !IsSpace(s[0]) then 0 else 1 + Indent(s[1..])
  }

  /** Inside a comment: no directive, no string, no second opening, and only space behind
      the end of the comment. */
  ghost predicate TidyComment(s: string) {
    && (forall i :: 0 <= i < |s| ==> s[i] != '#' && s[i] != '"')
    && (forall i: nat :: !PairAt(s, i, '/', '*'))
    && (forall i: nat :: PairAt(s, i, '*', '/') ==> AllSpace(s[i + 2..]))
  }

  /** A comment begins at the start of a line or not at all, and it ends at the end of one. */
  ghost predicate Tidy(line: string, inside: bool) {
    var k := Indent(line);
    if inside then TidyComment(line)
    else if PairAt(line, k, '/', '*') then TidyComment(line[k + 2..])
    else forall i: nat :: !PairAt(line, i, '/', '*') && !PairAt(line, i, '*', '/')
  }

  /** Every line is tidy in the comment state that the characters before it leave. */
  ghost predicate TidyText(s: string, inside: bool)
    decreases |s|
  {
    if s == "" then true
    else
      var n := LineLength(s);
      Tidy(s[..n], inside) && TidyText(if n == |s| then "" else s[n + 1..], InsideAfter(s[..n], inside))
  }

  lemma CharTrimmed(before: string, t: string, after: string, c: char)
    requires AllSpace(before) && AllSpace(after) && !IsSpace(c)
    ensures c in before + t + after <==> c in t
  {
    hide IsSpace;
  }

  /** What the scanner asks of a comment's part of a line, read off the characters. */
  lemma TidyCommentIff(s: string, before: string, t: string, after: string)
    requires s == before + t + after && AllSpace(before) && AllSpace(after)
    ensures TidyComment(s) <==> CommentOk(t)
  {
    hide AllSpace, IsSpace, FindPair, PairAt, Trim;
    MarksAreNoSpace();
    CharTrimmed(before, t, after, '#');
    CharTrimmed(before, t, after, '"');
    FindPairTrimmed(s, before, t, after, '/', '*');
    FindPairTrimmed(s, before, t, after, '*', '/');
    assert (forall i :: 0 <= i < |s| ==> s[i] != '#' && s[i] != '"') <==> '#' !in s && '"' !in s;
    NoPairIff(s, '/', '*');
    if HasPair(t, '*', '/') {
      var k := FindPair(t, '*', '/').value;
      BehindFirst(s, |before| + k);
      PairFits(t, k);
      assert s[|before| + k + 2..] == t[k + 2..] + after;
      SpaceIff(t[k + 2..], after);
    } else {
      NoPairIff(s, '*', '/');
    }
  }

  lemma MarksAreNoSpace()
    ensures !IsSpace('#') && !IsSpace('"') && !IsSpace('/') && !IsSpace('*')
  {
  }

  lemma NoPairIff(s: string, a: char, b: char)
    ensures !HasPair(s, a, b) <==> forall i: nat :: !PairAt(s, i, a, b)
  {
    hide PairAt, FindPair;
  }

  lemma PairFits(s: string, k: nat)
    requires FindPair(s, '*', '/') == Some(k)
    ensures k + 2 <= |s|
  {
  }

  /** Only space behind the first end of a comment: then there is no other. */
  lemma BehindFirst(s: string, k: nat)
    requires FindPair(s, '*', '/') == Some(k)
    ensures k + 2 <= |s|
    ensures (forall i: nat :: PairAt(s, i, '*', '/') ==> AllSpace(s[i + 2..])) <==> AllSpace(s[k + 2..])
  {
    hide FindPair;
    assert PairAt(s, k, '*', '/');
    if AllSpace(s[k + 2..]) {
      assert forall j :: k + 2 <= j < |s| ==> s[j] == s[k + 2..][j - k - 2];
      forall i: nat | PairAt(s, i, '*', '/')
        ensures i == k
      {
      }
    }
  }

  lemma SpaceIff(t: string, after: string)
    requires AllSpace(after)
    ensures AllSpace(t + after) <==> Trim(t) == ""
  {
    hide Trim, IsSpace;
    if Trim(t) == "" {
      TrimEmpty(t);
    }
    if AllSpace(t + after) {
      assert forall i :: 0 <= i < |t| ==> (t + after)[i] == t[i];
      TrimOfSpace(t);
    }
  }

  lemma IndentIs(s: string, before: string, t: string, after: string)
    requires s == before + t + after && AllSpace(before) && AllSpace(after)
    requires t != "" ==> !IsSpace(t[0])
    ensures t != "" ==> Indent(s) == |before|
    ensures PairAt(s, Indent(s), '/', '*') <==> Opens(t)
  {
    hide IsSpace;
    MarksAreNoSpace();
    var n := Indent(s);
    if t != "" {
      assert s[|before|] == t[0];
      assert forall j :: 0 <= j < |before| ==> s[j] == before[j];
      OpensIff(s, before, t, after);
    } else {
      if n < |s| {
        SpaceAround(before, t, after, n);
      }
    }
  }

  lemma OpensIff(s: string, before: string, t: string, after: string)
    requires s == before + t + after && AllSpace(after) && t != ""
    ensures PairAt(s, |before|, '/', '*') <==> Opens(t)
  {
    if |t| == 1 && after != "" {
      assert s[|before| + 1] == after[0];
    }
  }

  lemma TrimStartsSolid(raw: string) returns (before: string, after: string)
    ensures raw == before + Trim(raw) + after && AllSpace(before) && AllSpace(after)
    ensures Trim(raw) != "" ==> !IsSpace(Trim(raw)[0])
  {
    before := TrimStartSplit(raw);
    after := TrimEndSplit(TrimStart(raw));
    if Trim(raw) != "" {
      assert TrimStart(raw)[0] == Trim(raw)[0];
    }
  }

  /** The scanner takes exactly the tidy lines whose stripped form holds no unproved
      directive. */
  lemma LineTakenIff(raw: string, inside: bool)
    requires OneLine(raw)
    ensures ScanLine(raw, inside).fine <==> Tidy(raw, inside) && Classify(Trim(Strip(raw, inside))) != Unproved
  {
    hide Strip, FindPair, Trim, IsPlainDefine, LiteralInclude, CommentOk, TidyComment, PairAt;
    var line := Trim(raw);
    var before, after := TrimStartsSolid(raw);
    IndentIs(raw, before, line, after);
    if ScanLine(raw, inside).fine {
      LineAgrees(raw, inside);
    }
    if inside {
      TidyCommentIff(raw, before, line, after);
    } else if Opens(line) {
      var body := line[2..];
      assert raw[|before| + 2..] == "" + body + after;
      TidyCommentIff("" + body + after, "", body, after);
    } else {
      MarksAreNoSpace();
      FindPairTrimmed(raw, before, line, after, '/', '*');
      FindPairTrimmed(raw, before, line, after, '*', '/');
      NoPairIff(raw, '/', '*');
      NoPairIff(raw, '*', '/');
      if !HasPair(raw, '/', '*') {
        StripOutside(raw);
      }
    }
  }

  /** A text whose includes can be read off its lines: tidy comments, only directives that are
      understood, and no comment left open. */
  ghost predicate Readable(s: string, inside: bool) {
    TidyText(s, inside) && Proven(Lines(Strip(s, inside))) && !InsideAfter(s, inside)
  }

  lemma FirstLineProven(rest: string, inside: bool)
    requires rest != "" && Proven(Lines(Strip(rest, inside)))
    ensures Classify(Trim(Strip(rest[..LineLength(rest)], inside))) != Unproved
  {
    hide Strip, InsideAfter, Lines, LineLength, Classify, Trim, Proven;
    StripFirst(rest, inside);
    var line := rest[..LineLength(rest)];
    NoLines();
    BlankIsPlain();
    IncludedCons(Strip(line, inside), []);
    if LineLength(rest) < |rest| {
      var n := LineLength(rest);
      IncludedCons(Strip(line, inside), Lines(Strip(rest[n + 1..], InsideAfter(line, inside))));
    }
    assert [Strip(line, inside)] + [] == [Strip(line, inside)];
  }

  lemma TidyFirst(rest: string, inside: bool)
    requires rest != ""
    ensures var n := LineLength(rest);
            TidyText(rest, inside) <==>
              Tidy(rest[..n], inside) && TidyText(if n == |rest| then "" else rest[n + 1..], InsideAfter(rest[..n], inside))
  {
    hide Tidy, InsideAfter, LineLength;
  }

  lemma FirstIsLine(rest: string)
    ensures OneLine(rest[..LineLength(rest)])
  {
  }

  /** Scanning a line keeps the answer, and a refused line decides it. */
  lemma ReadableStep(rest: string, inside: bool)
    requires rest != ""
    ensures var n := LineLength(rest);
            var scan := ScanLine(rest[..n], inside);
            Readable(rest, inside) <==> scan.fine && Readable(if n == |rest| then "" else rest[n + 1..], scan.inside)
  {
    hide Strip, InsideAfter, Lines, Proven, ScanLine, LineLength, OneLine, Classify, Trim, Tidy, TidyText;
    var n := LineLength(rest);
    FirstIsLine(rest);
    LineTakenIff(rest[..n], inside);
    TidyFirst(rest, inside);
    if ScanLine(rest[..n], inside).fine {
      LineAgrees(rest[..n], inside);
      ScanAdvances(rest, inside);
    } else if Proven(Lines(Strip(rest, inside))) {
      FirstLineProven(rest, inside);
    }
  }

  lemma ReadableEnd(inside: bool)
    ensures Readable("", inside) <==> !inside
  {
    NoLines();
  }

  /** The scanner gives no reason exactly for the plain and readable texts, and then it has
      found exactly the includes of the text without block comments. */
  method ScanText(text: string) returns (reason: Option<string>, names: seq<string>)
    ensures reason.None? <==> LexicallyPlain(text) && Readable(text, false)
    ensures reason.None? ==> names == Included(Lines(Strip(text, false)))
  {
    hide Strip, InsideAfter, Lines, Included, Proven, ScanLine, LineLength, Readable;
    reason, names := None, [];
    var plain := CheckLexical(text);
    if !plain {
      return Some("compiler_resource_or_lexical_closure_not_proved"), [];
    }
    var rest, inside := text, false;
    while rest != ""
      invariant if reason.None? then Readable(text, false) <==> Readable(rest, inside) else !Readable(text, false)
      invariant reason.None? ==> Included(Lines(Strip(text, false))) == names + Included(Lines(Strip(rest, inside)))
      decreases |rest|
    {
      var n := LineLength(rest);
      var scan := ScanLine(rest[..n], inside);
      ReadableStep(rest, inside);
      if scan.fine {
        ScanAdvances(rest, inside);
        names := names + scan.names;
      } else {
        reason := Some(Cause(rest[..n], inside));
      }
      inside := scan.inside;
      rest := if n == |rest| then "" else rest[n + 1..];
    }
    ReadableEnd(inside);
    NoLines();
    if inside {
      reason := Some("comment_lexical_closure_not_proved");
    }
  }

  function Cause(raw: string, inside: bool): string {
    var line := Trim(raw);
    if inside || Opens(line) || HasPair(line, '/', '*') || HasPair(line, '*', '/') then "comment_lexical_closure_not_proved"
    else "preprocessor_closure_not_proved"
  }

  method CheckLexical(text: string) returns (plain: bool)
    ensures plain <==> LexicallyPlain(text)
  {
    for i := 0 to |text|
      invariant LexicallyPlain(text[..i])
    {
      if text[i] == '\\' || text[i] == '\'' || text[i] == '\0' || text[i] as int >= 128 {
        return false;
      }
      assert text[..i + 1] == text[..i] + [text[i]];
    }
    assert text[..|text|] == text;
    return true;
  }
}
