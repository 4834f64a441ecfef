/** A scan over many icon files under shared budgets (src/tools/dmi.rs). */
module AssetScan {
  import opened Basics
  import opened IconLimits
  import opened MetadataText
  import opened DmiCache

  datatype ScanLimits = ScanLimits(decodedBytes: nat, metadata: nat, states: nat, frames: nat)

  /** What reading a file gave: its bytes, too many of them, or an error. */
  datatype Input = Read(file: File) | TooLarge | Unreadable

  /** The file limits with what the scan has left. */
  function Budget(limits: Limits, metadataLeft: nat, statesLeft: nat, framesLeft: nat): Limits {
    limits.(metadata := Min(limits.metadata, metadataLeft),
            states := Min(limits.states, statesLeft),
            frames := Min(limits.frames, framesLeft))
  }

  /** A budget is blamed on the scan only when it was the scan that lowered it. */
  function Reason(error: Error, limits: Limits, budget: Limits): string {
    match error
    case MetadataLimit =>
      if budget.metadata < limits.metadata then "max_dmi_scan_metadata_bytes" else "max_dmi_metadata_bytes"
    case StateLimit => if budget.states < limits.states then "max_dmi_scan_states" else "max_dmi_states"
    case FrameLimit => if budget.frames < limits.frames then "max_dmi_scan_frames" else "max_dmi_frames"
    case PixelLimit => "max_dmi_decoded_pixels"
    case DecoderLimit => "max_dmi_decoder_bytes"
    case ScanLimit => "max_dmi_scan_decoded_bytes"
    case Invalid => "dmi_load_failed"
  }

  function DecodedOf(): Asset -> nat {
    (a: Asset) => DecodedBytes(a.file)
  }

  function TextOf(): Asset -> nat {
    (a: Asset) => TextLength(a.file)
  }

  function StatesOf(): Asset -> nat {
    (a: Asset) => |States(a.file)|
  }

  function FramesOf(): Asset -> nat {
    (a: Asset) => Cells(States(a.file))
  }

  /** The file is sound, within the file limits, and within what the scan has left. */
  ghost predicate Admissible(f: File, limits: Limits, scan: ScanLimits, assets: map<Path, Asset>) {
    && Sound(f) && Pixels(f) <= limits.pixels
    && TextLength(f) <= limits.metadata && MetadataFits(MetadataOf(f), limits)
    && Total(assets, DecodedOf()) + DecodedBytes(f) <= scan.decodedBytes
    && Total(assets, TextOf()) + TextLength(f) <= scan.metadata
    && Total(assets, StatesOf()) + |States(f)| <= scan.states
    && Total(assets, FramesOf()) + Cells(States(f)) <= scan.frames
  }

  class Scan {
    var assets: map<Path, Asset>
    var decodedBytes: nat
    var metadata: nat
    var states: nat
    var frames: nat
    var reasons: seq<string>

    /** The four counters are the sums over the assets, and within the scan's limits. */
    ghost predicate Valid(scan: ScanLimits)
      reads this
    {
      && decodedBytes == Total(assets, DecodedOf()) <= scan.decodedBytes
      && metadata == Total(assets, TextOf()) <= scan.metadata
      && states == Total(assets, StatesOf()) <= scan.states
      && frames == Total(assets, FramesOf()) <= scan.frames
      && (forall i, j :: 0 <= i < j < |reasons| ==> reasons[i] != reasons[j])
    }

    constructor (scan: ScanLimits)
      ensures Valid(scan) && assets == map[] && reasons == []
    {
      assets, decodedBytes, metadata, states, frames, reasons := map[], 0, 0, 0, 0, [];
    }

    function Left(limits: Limits, scan: ScanLimits): Limits
      reads this
      requires Valid(scan)
    {
      Budget(limits, scan.metadata - metadata, scan.states - states, scan.frames - frames)
    }

    /** The reason noted when the file is not added. */
    ghost function Refused(cache: Cache, path: Path, input: Input, limits: Limits, scan: ScanLimits): string
      reads this, cache
      requires Valid(scan)
    {
      match input
      case TooLarge => "max_dmi_file_bytes"
      case Unreadable => "dmi_load_failed"
      case Read(file) =>
        var refusal := Refusal(file, Left(limits, scan), scan.decodedBytes - decodedBytes, cache.Cached(path, file));
        if refusal.Some? then Reason(refusal.value, limits, Left(limits, scan)) else ""
    }

    method Note(reason: string)
      modifies this`reasons
      ensures reasons == if reason in old(reasons) then old(reasons) else old(reasons) + [reason]
    {
      if reason !in reasons {
        reasons := reasons + [reason];
      }
    }

    method Add(path: Path, asset: Asset, scan: ScanLimits)
      requires Valid(scan) && path !in assets
      requires decodedBytes + DecodedBytes(asset.file) <= scan.decodedBytes
      requires metadata + TextLength(asset.file) <= scan.metadata
      requires states + |States(asset.file)| <= scan.states
      requires frames + Cells(States(asset.file)) <= scan.frames
      modifies this
      ensures Valid(scan) && assets == old(assets)[path := asset] && reasons == old(reasons)
    {
      hide Total, DecodedBytes, TextLength, States, Cells;
      TotalWith(assets, DecodedOf(), path, asset);
      TotalWith(assets, TextOf(), path, asset);
      TotalWith(assets, StatesOf(), path, asset);
      TotalWith(assets, FramesOf(), path, asset);
      decodedBytes := decodedBytes + DecodedBytes(asset.file);
      metadata := metadata + TextLength(asset.file);
      states := states + |States(asset.file)|;
      frames := frames + Cells(States(asset.file));
      assets := assets[path := asset];
    }

    /** Loads a file once. A cached file is added exactly when it is admissible; another one
        must also pass the preflight under what the scan has left. A refusal leaves the scan
        as it was and notes one reason. */
    method Load(cache: Cache, path: Path, input: Input, limits: Limits, scan: ScanLimits) returns (r: Option<Asset>)
      requires Valid(scan) && cache.Valid()
      modifies this, cache
      ensures Valid(scan) && cache.Valid()
      ensures old(cache.CountWithin(limits)) ==> cache.CountWithin(limits)
      ensures path in old(assets) ==> r == Some(old(assets)[path]) && assets == old(assets)
      ensures path !in old(assets) ==>
                (r.Some? <==> && input.Read? && old(Admissible(input.file, limits, scan, assets))
                              && (old(cache.Cached(path, input.file)) || Preflighted(input.file, old(Left(limits, scan)))))
      ensures path !in old(assets) && r.Some? ==> r.value.file == input.file && assets == old(assets)[path := r.value]
      ensures r.Some? ==> reasons == old(reasons)
      ensures r.None? ==> assets == old(assets)
      ensures r.None? ==>
                var reason := old(Refused(cache, path, input, limits, scan));
                reasons == if reason in old(reasons) then old(reasons) else old(reasons) + [reason]
    {
      hide Total, Reason, Sound, DecodedBytes, TextLength, States, Cells, Refusal, Preflighted;
      if path in assets {
        return Some(assets[path]);
      }
      match input
      case TooLarge =>
        Note("max_dmi_file_bytes");
        return None;
      case Unreadable =>
        Note("dmi_load_failed");
        return None;
      case Read(file) =>
        var budget := Left(limits, scan);
        LoadsIff(cache, path, file, limits, scan);
        var loaded := cache.Load(path, file, budget, scan.decodedBytes - decodedBytes);
        match loaded
        case Ok(asset) =>
          Add(path, asset, scan);
          return Some(asset);
        case Err(error) =>
          Note(Reason(error, limits, budget));
          return None;
    }

    /** A load under what is left succeeds exactly for admissible files, which must be
        preflighted unless they are cached. */
    lemma LoadsIff(cache: Cache, path: Path, f: File, limits: Limits, scan: ScanLimits)
      requires Valid(scan) && cache.Valid()
      ensures Refusal(f, Left(limits, scan), scan.decodedBytes - decodedBytes, cache.Cached(path, f)).None?
         <==> && Admissible(f, limits, scan, assets)
              && (cache.Cached(path, f) || Preflighted(f, Left(limits, scan)))
    {
      hide Total, Cells;
      var budget, remaining := Left(limits, scan), scan.decodedBytes - decodedBytes;
      if Refusal(f, budget, remaining, cache.Cached(path, f)).None? {
        if !cache.Cached(path, f) {
          FreshMeansHit(f, budget, remaining);
        }
        HitMeans(f, budget, remaining);
      } else if Admissible(f, limits, scan, assets) {
        FreshIff(f, budget, remaining);
        HitMeans(f, budget, remaining);
      }
    }

    /** So the cache decides about an admissible file exactly when one of its running totals,
        or a delay list, is over what the scan has left. */
    lemma CacheDecidesIff(f: File, limits: Limits, scan: ScanLimits)
      requires Valid(scan) && Admissible(f, limits, scan, assets) && ReadAsWritten(f)
      ensures Preflighted(f, Left(limits, scan)) <==> RunningTotalsFit(f, Left(limits, scan))
    {
      hide Total, Cells;
      var budget, remaining := Left(limits, scan), scan.decodedBytes - decodedBytes;
      HitMeans(f, budget, remaining);
      FreshIff(f, budget, remaining);
      CacheMattersIff(f, budget, remaining);
    }

    /** The reason noted names a limit that the file breaks: the file's own limit, or what the
        scan has already added up together with the file. */
    lemma ReasonHolds(cache: Cache, path: Path, f: File, limits: Limits, scan: ScanLimits)
      requires Valid(scan) && cache.Valid()
      requires Refusal(f, Left(limits, scan), scan.decodedBytes - decodedBytes, cache.Cached(path, f)).Some?
      ensures var reason := Refused(cache, path, Read(f), limits, scan);
              && (reason == "max_dmi_metadata_bytes" ==> TextLength(f) > limits.metadata)
              && (reason == "max_dmi_scan_metadata_bytes" ==> metadata + TextLength(f) > scan.metadata)
              && (reason == "max_dmi_states" ==> StatesOver(f, limits.states))
              && (reason == "max_dmi_scan_states" ==> StatesOver(f, scan.states - states))
              && (reason == "max_dmi_frames" ==> FramesOver(f, limits.frames))
              && (reason == "max_dmi_scan_frames" ==> FramesOver(f, scan.frames - frames))
              && (reason == "max_dmi_scan_decoded_bytes" ==> decodedBytes + DecodedBytes(f) > scan.decodedBytes)
              && (reason == "max_dmi_decoded_pixels" ==>
                    Pixels(f) > limits.pixels || DecodedBytes(f) > U64_MAX || (!f.image.Intact? && f.image.error == PixelLimit))
    {
      hide Total, Cells, TextError, Rows, Reason;
      var budget := Left(limits, scan);
      var error := Refusal(f, budget, scan.decodedBytes - decodedBytes, cache.Cached(path, f)).value;
      ErrorHolds(f, budget, scan.decodedBytes - decodedBytes, cache.Cached(path, f));
      ReasonFor(error, limits, budget);
    }
  }

  ghost predicate StatesOver(f: File, limit: nat) {
    |States(f)| > limit || (f.description.Described? && |TextRows(f.description.text)| > limit)
  }

  /** Too many frames, by what the parser or the lines say, at the end or on the way. */
  ghost predicate FramesOver(f: File, limit: nat) {
    || Cells(States(f)) > limit || Cells(States(f)) > U32_MAX
    || (f.description.Described?
        && exists limits: Limits :: limits.frames == limit
             && (!Fits(TextRows(f.description.text), limits) || !WithinRunning(f.description.text, limits)))
  }

  lemma ReasonFor(error: Error, limits: Limits, budget: Limits)
    ensures var r := Reason(error, limits, budget);
            && (r == "max_dmi_metadata_bytes" ==> error == MetadataLimit && budget.metadata >= limits.metadata)
            && (r == "max_dmi_scan_metadata_bytes" ==> error == MetadataLimit && budget.metadata < limits.metadata)
            && (r == "max_dmi_states" ==> error == StateLimit && budget.states >= limits.states)
            && (r == "max_dmi_scan_states" ==> error == StateLimit && budget.states < limits.states)
            && (r == "max_dmi_frames" ==> error == FrameLimit && budget.frames >= limits.frames)
            && (r == "max_dmi_scan_frames" ==> error == FrameLimit && budget.frames < limits.frames)
            && (r == "max_dmi_scan_decoded_bytes" ==> error == ScanLimit)
            && (r == "max_dmi_decoded_pixels" ==> error == PixelLimit)
  {
    assert |"max_dmi_metadata_bytes"| == 22 && |"max_dmi_scan_metadata_bytes"| == 27 && |"max_dmi_states"| == 14;
    assert |"max_dmi_scan_states"| == 19 && |"max_dmi_scan_frames"| == 19 && |"max_dmi_frames"| == 14;
    assert "max_dmi_states"[8] == 's' && "max_dmi_frames"[8] == 'f';
    assert "max_dmi_scan_states"[13] == 's' && "max_dmi_scan_frames"[13] == 'f';
    assert |"max_dmi_decoded_pixels"| == 22 && "max_dmi_decoded_pixels"[8] == 'd' && "max_dmi_metadata_bytes"[8] == 'm';
    assert |"max_dmi_decoder_bytes"| == 21 && |"max_dmi_scan_decoded_bytes"| == 26 && |"dmi_load_failed"| == 15;
  }

  /** The limit an error names is broken. */
  lemma ErrorHolds(f: File, limits: Limits, remaining: nat, cached: bool)
    requires Refusal(f, limits, remaining, cached).Some?
    ensures var error := Refusal(f, limits, remaining, cached).value;
            && (error == MetadataLimit ==> TextLength(f) > limits.metadata)
            && (error == StateLimit ==> StatesOver(f, limits.states))
            && (error == FrameLimit ==> FramesOver(f, limits.frames))
            && (error == ScanLimit ==> DecodedBytes(f) > remaining)
            && (error == PixelLimit ==>
                  Pixels(f) > limits.pixels || DecodedBytes(f) > U64_MAX || (!f.image.Intact? && f.image.error == PixelLimit))
  {
    hide Cells, TextError, Fits, WithinRunning, TextRows, SheetCells, CellsInside;
    if f.description.Described? {
      LimitNamed(f.description.text, limits);
    }
  }

  /** What a hit tests of a sound file. */
  lemma HitMeans(f: File, limits: Limits, remaining: nat)
    requires Sound(f)
    ensures Refusal(f, limits, remaining, true).None? <==>
              && Pixels(f) <= limits.pixels && DecodedBytes(f) <= remaining
              && TextLength(f) <= limits.metadata && MetadataFits(MetadataOf(f), limits)
  {
    hide Cells;
  }
}
