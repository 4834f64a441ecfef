/** The decoded-icon cache (src/spaceman/dmi.rs) and the checks of a load, made in another
    order and to another extent when the file is cached (src/spaceman/dmi_decode.rs). A
    file's digest is treated as the file itself. */
module DmiCache {
  import opened Basics
  import opened IconLimits
  import opened MetadataText

  /** Canonical paths, numbered in their order. */
  type Path = nat

  datatype Sheet = Sheet(width: nat, height: nat)

  datatype Description =
    | Absent
    | Broken
    | Described(text: Text, unicode: bool)

  /** What the metadata parser makes of a description. */
  datatype Parsed = Parsed(cellWidth: nat, cellHeight: nat, states: seq<(nat, nat)>)

  /** The error the image ends with, before its pixels are decoded or while they are. The
      decoder's own limit is the same for all calls. */
  datatype Picture = Intact | Unstarted(error: ImageError) | Undecodable(error: ImageError)

  type ImageError = e: Error | e == Invalid || e == PixelLimit || e == DecoderLimit witness Invalid

  /** A file: the sheet its header announces, if the header is sound; its description; what
      the parser yields, unless it gives up; and its image. */
  datatype File = File(
    id: int,
    header: Option<Sheet>,
    description: Description,
    parsed: Option<Parsed>,
    image: Picture)

  function Pixels(f: File): nat {
    if f.header.Some? then f.header.value.width * f.header.value.height else 0
  }

  function DecodedBytes(f: File): nat {
    4 * Pixels(f)
  }

  function TextLength(f: File): nat {
    if f.description.Described? then f.description.text.length else 0
  }

  /** Without a description the whole sheet is one cell and there are no states. */
  function MetadataOf(f: File): Parsed {
    if f.description.Absent? && f.header.Some? then Parsed(f.header.value.width, f.header.value.height, [])
    else if f.parsed.Some? then f.parsed.value
    else Parsed(0, 0, [])
  }

  function States(f: File): seq<(nat, nat)> {
    MetadataOf(f).states
  }

  datatype Asset = Asset(file: File, generation: nat)

  datatype Entry = Entry(asset: Asset, decoded: nat, lastUse: nat)

  // ------------------------------------------------------------------- metadata

  /** Cells lie inside the sheet. */
  predicate CellsInside(m: Parsed, sheet: Sheet) {
    0 < m.cellWidth <= sheet.width && 0 < m.cellHeight <= sheet.height
  }

  function SheetCells(m: Parsed, sheet: Sheet): nat
    requires CellsInside(m, sheet)
  {
    (sheet.width / m.cellWidth) * (sheet.height / m.cellHeight)
  }

  /** Every state has its cells on the sheet. */
  predicate OnSheet(m: Parsed, sheet: Sheet) {
    CellsInside(m, sheet) && Cells(m.states) <= SheetCells(m, sheet)
  }

  predicate MetadataFits(m: Parsed, limits: Limits) {
    |m.states| <= limits.states && Cells(m.states) <= limits.frames && Cells(m.states) <= U32_MAX
  }

  function MetadataError(m: Parsed, sheet: Sheet, limits: Limits): Option<Error> {
    if !CellsInside(m, sheet) then Some(Invalid)
    else if |m.states| > limits.states then Some(StateLimit)
    else if Cells(m.states) > limits.frames || Cells(m.states) > U32_MAX then Some(FrameLimit)
    else if Cells(m.states) > SheetCells(m, sheet) then Some(Invalid)
    else None
  }

  /** The loop stops at the first running total over the limit; that is the same as the
      whole total being over it. */
  method ValidateMetadata(m: Parsed, sheet: Sheet, limits: Limits) returns (error: Option<Error>)
    ensures error == MetadataError(m, sheet, limits)
    ensures error.None? <==> OnSheet(m, sheet) && MetadataFits(m, limits)
  {
    if m.cellWidth == 0 || m.cellHeight == 0 || m.cellWidth > sheet.width || m.cellHeight > sheet.height {
      return Some(Invalid);
    }
    if |m.states| > limits.states {
      return Some(StateLimit);
    }
    var frames, i := 0, 0;
    while i < |m.states|
      invariant i <= |m.states| && frames == Cells(m.states[..i])
      invariant frames <= limits.frames && frames <= U32_MAX
    {
      assert m.states[..i + 1][..i] == m.states[..i];
      var sum := BoundedFrames(m.states[i].0, m.states[i].1, frames, limits.frames);
      CellsPrefix(m.states, i + 1);
      if sum.None? {
        return Some(FrameLimit);
      }
      frames, i := sum.value, i + 1;
    }
    assert m.states[..i] == m.states;
    if frames > SheetCells(m, sheet) {
      return Some(Invalid);
    }
    return None;
  }

  // ------------------------------------------------------------- fresh and cached loads

  /** The description is text in which no line is wrong under all limits. */
  predicate Readable(f: File) {
    f.description.Described? ==> f.description.unicode && WellFormed(f.description.text)
  }

  /** What can be said of a file once it has been decoded, under whatever limits. */
  ghost predicate Sound(f: File) {
    && f.header.Some? && DecodedBytes(f) <= U64_MAX
    && !f.description.Broken? && Readable(f) && (f.description.Described? ==> f.parsed.Some?)
    && OnSheet(MetadataOf(f), f.header.value)
    && f.image.Intact?
  }

  /** The tests that come before a file is looked up. */
  function HeaderError(f: File, limits: Limits, remaining: nat): Option<Error> {
    if f.header.None? then Some(Invalid)
    else if Pixels(f) > limits.pixels || DecodedBytes(f) > U64_MAX then Some(PixelLimit)
    else if DecodedBytes(f) > remaining then Some(ScanLimit)
    else None
  }

  /** The error of reading and bounding the description, before the parser runs. */
  function DescriptionError(d: Description, limits: Limits): Option<Error> {
    match d
    case Absent => None
    case Broken => Some(Invalid)
    case Described(text, unicode) =>
      if text.length > limits.metadata then Some(MetadataLimit)
      else if !unicode then Some(Invalid)
      else TextError(text, limits)
  }

  /** The error met before any pixel is decoded. */
  function EarlyError(f: File, limits: Limits): Option<Error>
    requires f.header.Some?
  {
    var first := DescriptionError(f.description, limits);
    if first.Some? then first
    else if f.description.Described? && f.parsed.None? then Some(Invalid)
    else
      var second := MetadataError(MetadataOf(f), f.header.value, limits);
      if second.Some? then second else if f.image.Unstarted? then Some(f.image.error) else None
  }

  /** The error that decoding from scratch ends with. */
  function DecodeError(f: File, limits: Limits): Option<Error>
    requires f.header.Some?
  {
    var first := EarlyError(f, limits);
    if first.Some? then first else if f.image.Undecodable? then Some(f.image.error) else None
  }

  /** The error of the tests a cached file is put to. */
  function HitError(f: File, limits: Limits): Option<Error>
    requires f.header.Some?
  {
    var first := MetadataError(MetadataOf(f), f.header.value, limits);
    if first.Some? then first
    else if TextLength(f) > limits.metadata then Some(MetadataLimit)
    else None
  }

  /** The error a load ends with. */
  function Refusal(f: File, limits: Limits, remaining: nat, cached: bool): Option<Error> {
    var first := HeaderError(f, limits, remaining);
    if first.Some? then first
    else if cached then HitError(f, limits) else DecodeError(f, limits)
  }

  /** The preflight lets the description pass. */
  predicate Preflighted(f: File, limits: Limits) {
    f.description.Described? ==> f.description.unicode && TextError(f.description.text, limits).None?
  }

  /** What decodes is sound, and a hit would have passed too. */
  lemma FreshMeansHit(f: File, limits: Limits, remaining: nat)
    requires Refusal(f, limits, remaining, false).None?
    ensures Sound(f) && Preflighted(f, limits) && Refusal(f, limits, remaining, true).None?
  {
    if f.description.Described? {
      AcceptedIff(f.description.text, limits);
    }
    hide TextError, Cells, SheetCells, WellFormed, WithinRunning, TextRows;
  }

  /** A sound file that a hit lets through is decoded afresh exactly when the preflight, which
      only a fresh load runs, lets its description pass as well. */
  lemma FreshIff(f: File, limits: Limits, remaining: nat)
    requires Sound(f)
    ensures Refusal(f, limits, remaining, false).None?
       <==> Refusal(f, limits, remaining, true).None? && Preflighted(f, limits)
  {
    hide TextError, Cells, SheetCells;
  }

  /** The parser found the states the lines describe. */
  predicate ReadAsWritten(f: File) {
    f.description.Described? && f.parsed.Some? ==> f.parsed.value.states == Counts(TextRows(f.description.text))
  }

  predicate RunningTotalsFit(f: File, limits: Limits) {
    f.description.Described? ==> WithinRunning(f.description.text, limits)
  }

  /** Whether a file loads depends on the cache exactly when a hit lets it through and some
      running total after a property line, or some delay list, is over the frame limit. */
  lemma CacheMattersIff(f: File, limits: Limits, remaining: nat)
    requires Sound(f) && ReadAsWritten(f)
    ensures Refusal(f, limits, remaining, true).None? != Refusal(f, limits, remaining, false).None?
       <==> Refusal(f, limits, remaining, true).None? && !RunningTotalsFit(f, limits)
  {
    FreshIff(f, limits, remaining);
    if f.description.Described? {
      AcceptedIff(f.description.text, limits);
    }
    hide TextError, Cells, SheetCells, WellFormed, WithinRunning, Rows;
  }

  /** One state of four cells whose third line passes through thirty-two. */
  function Detour(): Text {
    Text(60, true, [StateName(true), DirCount(Some(8)), FrameCount(Some(4)), DirCount(Some(1)), EndOfData])
  }

  function DetourFile(): File {
    File(0, Some(Sheet(2, 2)), Described(Detour(), true), Some(Parsed(1, 1, [(1, 4)])), Intact)
  }

  lemma DetourBody()
    ensures BodyLength(Detour().lines) == 4
  {
    hide BodyLength;
    BodyIs(Detour().lines, 4);
  }

  lemma DetourRows()
    ensures var lines := Detour().lines;
            && BodyLength(lines) == 4
            && Rows(lines[..1]) == [Row(1, 1, false, false)]
            && Rows(lines[..2]) == [Row(8, 1, false, false)]
            && Rows(lines[..3]) == [Row(8, 4, true, false)]
            && Rows(lines[..4]) == [Row(1, 4, true, false)]
  {
    var lines := Detour().lines;
    DetourBody();
    NoRows();
    hide Rows, BodyLength;
    assert lines[..0] == [];
    Extend(lines, 0);
    Extend(lines, 1);
    Extend(lines, 2);
    Extend(lines, 3);
  }

  lemma OneRow(row: Row)
    ensures Cells(Counts([row])) == row.dirs * row.frames
  {
    CountsLast([], row);
  }

  lemma DetourTotals(limits: Limits)
    requires limits.states == 1 && limits.frames == 8
    ensures TextRows(Detour()) == [Row(1, 4, true, false)] && Fits(TextRows(Detour()), limits)
  {
    hide Rows, BodyLength;
    DetourRows();
    OneRow(Row(1, 4, true, false));
  }

  lemma DetourError(limits: Limits)
    requires limits.states == 1 && limits.frames == 8
    ensures TextError(Detour(), limits) == Some(FrameLimit)
  {
    hide Rows, BodyLength, FirstError;
    var lines := Detour().lines;
    DetourRows();
    assert lines[..0] == [];
    NoRows();
    OneRow(Row(8, 1, false, false));
    OneRow(Row(8, 4, true, false));
    hide Cells;
    assert LineError(Rows(lines[..0]), lines[0], limits) == None;
    assert LineError(Rows(lines[..1]), lines[1], limits) == None;
    assert LineError(Rows(lines[..2]), lines[2], limits) == Some(FrameLimit);
    FirstErrorAt(lines, 0, 2, 4, limits);
  }

  lemma {:induction false} FirstErrorAt(lines: seq<Line>, i: nat, k: nat, n: nat, limits: Limits)
    requires i <= k < n <= |lines| && LineError(Rows(lines[..k]), lines[k], limits).Some?
    requires forall j :: i <= j < k ==> LineError(Rows(lines[..j]), lines[j], limits).None?
    ensures FirstError(lines, i, n, limits) == LineError(Rows(lines[..k]), lines[k], limits)
    decreases k - i
  {
    hide LineError, Rows;
    if i < k {
      FirstErrorAt(lines, i + 1, k, n, limits);
    }
  }

  lemma NoRows()
    ensures Rows([]) == [] && Cells(Counts([])) == 0
  {
  }

  lemma DetourReadable()
    ensures Readable(DetourFile())
  {
    hide Rows, BodyLength;
    var lines := Detour().lines;
    DetourRows();
    forall k | 0 <= k < BodyLength(lines)
      ensures LineWell(Rows(lines[..k]), lines[k])
    {
      assert k == 0 || k == 1 || k == 2 || k == 3;
    }
  }

  /** A scan that has eight frames left loads this file when it is cached and refuses it when
      it is not, although it has four. */
  lemma CacheDecides(limits: Limits, remaining: nat)
    requires limits.pixels >= 4 && limits.metadata >= 60 && limits.states == 1 && limits.frames == 8
    requires remaining >= 16
    ensures Sound(DetourFile()) && ReadAsWritten(DetourFile())
    ensures Refusal(DetourFile(), limits, remaining, true).None?
    ensures Refusal(DetourFile(), limits, remaining, false) == Some(FrameLimit)
  {
    hide Rows, TextRows, Readable, TextError;
    DetourReadable();
    DetourTotals(limits);
    OneRow(Row(1, 4, true, false));
    assert Counts([Row(1, 4, true, false)]) == [(1, 4)];
    hide Cells;
    DetourError(limits);
  }

  // ----------------------------------------------------------------------- cache

  function Decoded(): Entry -> nat {
    (e: Entry) => e.decoded
  }

  predicate Older(m: map<Path, Entry>, p: Path, q: Path)
    requires p in m && q in m
  {
    m[p].lastUse < m[q].lastUse || (m[p].lastUse == m[q].lastUse && p <= q)
  }

  predicate Oldest(m: map<Path, Entry>, p: Path) {
    p in m && forall q | q in m :: Older(m, p, q)
  }

  lemma {:induction false} SomeOldest(m: map<Path, Entry>) returns (p: Path)
    requires m != map[]
    ensures Oldest(m, p)
    decreases m.Keys
  {
    p :| p in m;
    var rest := m - {p};
    if rest == map[] {
      forall r | r in m ensures Older(m, p, r) {
        assert r == p || r in rest;
      }
    } else {
      var q := SomeOldest(rest);
      if Older(m, q, p) {
        forall r | r in m ensures Older(m, q, r) {
          if r != p {
            assert Older(rest, q, r);
          }
        }
        p := q;
      } else {
        forall r | r in m ensures Older(m, p, r) {
          if r != p {
            assert Older(rest, q, r);
          }
        }
      }
    }
  }

  ghost predicate WithinLimits(m: map<Path, Entry>, limits: Limits) {
    |m| <= limits.cacheEntries && Total(m, Decoded()) <= limits.cacheBytes
  }

  /** What was dropped is older than everything that was kept. */
  ghost predicate OldestDropped(all: map<Path, Entry>, kept: map<Path, Entry>) {
    && (forall p | p in kept :: p in all && kept[p] == all[p])
    && (forall p, q | p in all && p !in kept && q in kept :: Older(all, p, q))
  }

  /** `kept` is what remains of `all` after dropping its oldest entries one by one while it
      was over a limit: every dropped entry is older than every kept one, and putting back
      the last one dropped would break a limit. */
  ghost predicate EvictedDownTo(all: map<Path, Entry>, kept: map<Path, Entry>, limits: Limits) {
    && OldestDropped(all, kept)
    && (kept == all || exists last ::
          last in all && last !in kept && !WithinLimits(kept[last := all[last]], limits)
          && forall p | p in all && p !in kept :: Older(all, p, last))
  }

  ghost predicate NewestThatFit(all: map<Path, Entry>, kept: map<Path, Entry>, limits: Limits) {
    WithinLimits(kept, limits) && EvictedDownTo(all, kept, limits)
  }

  /** A strictly newest entry survives exactly when it fits alone. */
  lemma NewestKeptIff(all: map<Path, Entry>, kept: map<Path, Entry>, limits: Limits, p: Path)
    requires NewestThatFit(all, kept, limits) && p in all
    requires forall q | q in all && q != p :: all[q].lastUse < all[p].lastUse
    ensures p in kept <==> 1 <= limits.cacheEntries && all[p].decoded <= limits.cacheBytes
  {
    if p in kept {
      assert |kept.Keys| > 0;
      TotalWithout(kept, Decoded(), p);
    } else {
      assert forall q | q in kept :: Older(all, p, q);
      assert kept == map[];
      assert Older(all, p, p);
      var last :| last in all && last !in kept && !WithinLimits(kept[last := all[last]], limits)
                  && forall r | r in all && r !in kept :: Older(all, r, last);
      assert Older(all, p, last);
      TotalWith(kept, Decoded(), p, all[p]);
      assert |kept[p := all[p]]| == 1;
    }
  }

  /** With a saturated clock that is no longer so: among equal uses the path decides, and
      the entry just installed can be dropped for an older one although it fits alone. */
  lemma SaturatedClockDropsNew(asset: Asset, limits: Limits)
    requires limits.cacheEntries == 1 && limits.cacheBytes == 10
    ensures var entry := Entry(asset, 1, U64_MAX);
            NewestThatFit(map[0 := entry, 1 := entry], map[1 := entry], limits)
  {
    var entry := Entry(asset, 1, U64_MAX);
    var all, kept := map[0 := entry, 1 := entry], map[1 := entry];
    TotalWith(map[], Decoded(), 1, entry);
    assert map[][1 := entry] == kept;
    assert kept[0 := all[0]] == all;
    assert all.Keys == {0, 1};
    assert kept.Keys == {1};
    assert Older(all, 0, 0);
  }

  /** Dropping the oldest of an overfull remainder keeps what was said of it. */
  lemma EvictOne(all: map<Path, Entry>, kept: map<Path, Entry>, limits: Limits, victim: Path)
    requires EvictedDownTo(all, kept, limits) && !WithinLimits(kept, limits) && Oldest(kept, victim)
    ensures EvictedDownTo(all, kept - {victim}, limits)
  {
    var left := kept - {victim};
    assert left[victim := all[victim]] == kept;
    forall p, q | p in all && p !in left && q in left ensures Older(all, p, q) {
      if p == victim {
        assert Older(kept, victim, q);
      }
    }
    forall p | p in all && p !in left ensures Older(all, p, victim) {
      if p == victim {
        assert Older(kept, victim, victim);
      } else {
        assert p !in kept;
      }
    }
  }

  lemma EvictNext(all: map<Path, Entry>, kept: map<Path, Entry>, victim: Path)
    requires OldestDropped(all, kept) && Oldest(kept, victim)
    ensures OldestDropped(all, kept - {victim})
  {
    var left := kept - {victim};
    forall p, q | p in all && p !in left && q in left ensures Older(all, p, q) {
      if p == victim {
        assert Older(kept, victim, q);
      }
    }
  }

  lemma NothingDropped(all: map<Path, Entry>, limits: Limits)
    ensures OldestDropped(all, all) && EvictedDownTo(all, all, limits)
  {
  }

  lemma CountedIsNotEmpty(m: map<Path, Entry>, count: nat, limits: Limits)
    requires count <= Total(m, Decoded())
    requires |m| > limits.cacheEntries || count > limits.cacheBytes
    ensures m != map[]
  {
  }

  /** Decoding a file from scratch; says whether its pixels were reached. */
  method Decode(f: File, limits: Limits) returns (error: Option<Error>, started: bool)
    requires f.header.Some?
    ensures error == DecodeError(f, limits)
    ensures started <==> EarlyError(f, limits).None?
  {
    hide TextError, Cells, SheetCells;
    match f.description {
    case Absent =>
    case Broken =>
      return Some(Invalid), false;
    case Described(text, unicode) =>
      if text.length > limits.metadata {
        return Some(MetadataLimit), false;
      }
      if !unicode {
        return Some(Invalid), false;
      }
      var refused := Preflight(text, limits);
      if refused.Some? {
        return refused, false;
      }
      if f.parsed.None? {
        return Some(Invalid), false;
      }
    }
    var refused := ValidateMetadata(MetadataOf(f), f.header.value, limits);
    if refused.Some? {
      return refused, false;
    }
    match f.image
    case Intact => return None, true;
    case Unstarted(e) => return Some(e), false;
    case Undecodable(e) => return Some(e), true;
  }

  class Cache {
    var entries: map<Path, Entry>
    var decodedBytes: nat
    var nextGeneration: nat
    var clock: nat
    var decodeCount: nat

    /** Every entry holds a decoded file and no entry was used after the clock. The byte
        count is never more than the entries hold. */
    ghost predicate Valid()
      reads this
    {
      && decodedBytes <= Total(entries, Decoded()) && decodedBytes <= U64_MAX
      && clock <= U64_MAX
      && (forall p | p in entries ::
            && entries[p].lastUse <= clock
            && Sound(entries[p].asset.file)
            && entries[p].decoded == DecodedBytes(entries[p].asset.file))
    }

    /** The byte count is what the entries hold. */
    ghost predicate Exact()
      reads this
    {
      decodedBytes == Total(entries, Decoded())
    }

    /** The limits hold as far as the cache's own count goes. */
    predicate CountWithin(limits: Limits)
      reads this
    {
      |entries| <= limits.cacheEntries && decodedBytes <= limits.cacheBytes
    }

    predicate Cached(path: Path, f: File)
      reads this
    {
      path in entries && entries[path].asset.file == f
    }

    constructor ()
      ensures Valid() && Exact() && entries == map[]
    {
      entries, decodedBytes, nextGeneration, clock, decodeCount := map[], 0, 0, 0, 0;
    }

    /** Stamps a use; the entry's contents stay. */
    method Touch(path: Path)
      requires Valid() && path in entries
      modifies this`entries, this`clock
      ensures Valid() && (old(Exact()) ==> Exact())
      ensures clock == Min(old(clock) + 1, U64_MAX)
      ensures entries == old(entries)[path := old(entries)[path].(lastUse := clock)]
    {
      clock := Min(clock + 1, U64_MAX);
      TotalWith(entries, Decoded(), path, entries[path].(lastUse := clock));
      entries := entries[path := entries[path].(lastUse := clock)];
    }

    method Remove(victim: Path)
      requires Valid() && victim in entries
      modifies this`entries, this`decodedBytes
      ensures Valid() && (old(Exact()) ==> Exact())
      ensures entries == old(entries) - {victim}
    {
      TotalWithout(entries, Decoded(), victim);
      decodedBytes := Max(decodedBytes - entries[victim].decoded, 0);
      entries := entries - {victim};
    }

    /** Drops the least recently used entries until the count is within the limits. */
    method Evict(limits: Limits)
      requires Valid()
      modifies this`entries, this`decodedBytes
      ensures Valid() && CountWithin(limits) && OldestDropped(old(entries), entries)
      ensures old(Exact()) ==> Exact() && NewestThatFit(old(entries), entries, limits)
    {
      hide EvictedDownTo, OldestDropped, Oldest;
      ghost var all, exact := entries, Exact();
      NothingDropped(all, limits);
      while |entries| > limits.cacheEntries || decodedBytes > limits.cacheBytes
        invariant Valid() && OldestDropped(all, entries)
        invariant exact ==> Exact() && EvictedDownTo(all, entries, limits)
        decreases |entries|
      {
        CountedIsNotEmpty(entries, decodedBytes, limits);
        ghost var some := SomeOldest(entries);
        var victim :| victim in entries && Oldest(entries, victim);
        EvictNext(all, entries, victim);
        if exact {
          EvictOne(all, entries, limits, victim);
        }
        Remove(victim);
      }
    }

    /** Installs a decoded file. The byte count stays exact unless the images together
        outgrow the address space; while it is exact, what remains is the newest that fits. */
    method Install(path: Path, f: File, limits: Limits) returns (asset: Asset)
      requires Valid() && Sound(f)
      modifies this`entries, this`decodedBytes, this`nextGeneration, this`clock
      ensures Valid() && asset.file == f && clock == Min(old(clock) + 1, U64_MAX)
      ensures old(Cached(path, f)) ==>
                && entries == old(entries)[path := old(entries)[path].(lastUse := clock)]
                && asset == old(entries)[path].asset && (old(Exact()) ==> Exact())
      ensures !old(Cached(path, f)) ==>
                var all := old(entries)[path := Entry(asset, DecodedBytes(f), clock)];
                && nextGeneration == Min(old(nextGeneration) + 1, U64_MAX) && asset.generation == nextGeneration
                && CountWithin(limits) && OldestDropped(all, entries)
                && (old(Exact()) && old(Total(entries, Decoded())) + DecodedBytes(f) <= U64_MAX ==>
                      && Exact() && NewestThatFit(all, entries, limits)
                      && (old(clock) < U64_MAX ==>
                            (path in entries <==> 1 <= limits.cacheEntries && DecodedBytes(f) <= limits.cacheBytes)))
    {
      hide EvictedDownTo, OldestDropped, NewestThatFit, WithinLimits, CountWithin, Older, Sound, DecodedBytes, Total;
      if Cached(path, f) {
        Touch(path);
        return entries[path].asset;
      }
      clock := Min(clock + 1, U64_MAX);
      nextGeneration := Min(nextGeneration + 1, U64_MAX);
      asset := Asset(f, nextGeneration);
      var entry := Entry(asset, DecodedBytes(f), clock);
      TotalWith(entries, Decoded(), path, entry);
      if path in entries {
        TotalWithout(entries, Decoded(), path);
        decodedBytes := Max(decodedBytes - entries[path].decoded, 0);
      }
      entries := entries[path := entry];
      decodedBytes := Min(decodedBytes + entry.decoded, U64_MAX);
      ghost var all, exact := entries, Exact();
      Evict(limits);
      if exact && old(clock) < U64_MAX {
        NewestKeptIff(all, entries, limits, path);
      }
    }

    /** Loads a file: with the cheaper tests when it is cached, from scratch otherwise. */
    method Load(path: Path, f: File, limits: Limits, remaining: nat) returns (r: Result<Asset, Error>)
      requires Valid()
      modifies this
      ensures Valid()
      ensures var refusal := Refusal(f, limits, remaining, old(Cached(path, f)));
              if refusal.Some? then r == Err(refusal.value) && entries == old(entries)
              else r.Ok? && r.value.file == f && Sound(f)
      ensures var decodes := !old(Cached(path, f)) && HeaderError(f, limits, remaining).None? && EarlyError(f, limits).None?;
              decodeCount == old(decodeCount) + if decodes then 1 else 0
      ensures r.Ok? && old(Cached(path, f)) ==>
                entries == old(entries)[path := old(entries)[path].(lastUse := clock)] && r.value == old(entries)[path].asset
      ensures r.Ok? && !old(Cached(path, f)) ==>
                OldestDropped(old(entries)[path := Entry(r.value, DecodedBytes(f), clock)], entries)
      ensures r.Ok? && !old(Cached(path, f)) ==> CountWithin(limits)
      ensures old(CountWithin(limits)) ==> CountWithin(limits)
      ensures old(Exact()) && old(Total(entries, Decoded())) + DecodedBytes(f) <= U64_MAX ==> Exact()
    {
      hide EarlyError, Total, Sound, OldestDropped, CellsInside, SheetCells, MetadataFits, Pixels;
      if f.header.None? {
        return Err(Invalid);
      }
      if Pixels(f) > limits.pixels || DecodedBytes(f) > U64_MAX {
        return Err(PixelLimit);
      }
      if DecodedBytes(f) > remaining {
        return Err(ScanLimit);
      }
      if Cached(path, f) {
        var refused := ValidateMetadata(MetadataOf(f), f.header.value, limits);
        if refused.Some? {
          return Err(refused.value);
        }
        if TextLength(f) > limits.metadata {
          return Err(MetadataLimit);
        }
        Touch(path);
        return Ok(entries[path].asset);
      }
      var refused, started := Decode(f, limits);
      decodeCount := decodeCount + if started then 1 else 0;
      if refused.Some? {
        return Err(refused.value);
      }
      FreshMeansHit(f, limits, remaining);
      var asset := Install(path, f, limits);
      return Ok(asset);
    }
  }
}
