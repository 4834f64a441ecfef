/** The limits of icon files, the errors that name them, and the cells of a sheet
    (src/limits.rs, src/spaceman/dmi_decode.rs). */
module IconLimits {
  import opened Basics

  const U32_MAX: nat := 0xFFFF_FFFF

  datatype Limits = Limits(
    pixels: nat,
    metadata: nat,
    states: nat,
    frames: nat,
    cacheEntries: nat,
    cacheBytes: nat)

  datatype Error = Invalid | PixelLimit | DecoderLimit | MetadataLimit | StateLimit | FrameLimit | ScanLimit

  /** Cells of all states, each given by its directions and frames. */
  function Cells(states: seq<(nat, nat)>): nat {
    if states == [] then 0 else Cells(states[..|states| - 1]) + states[|states| - 1].0 * states[|states| - 1].1
  }

  /** The running total with one more state, if it is within the limit and 32 bits. */
  function BoundedFrames(dirs: nat, frames: nat, total: nat, limit: nat): Option<nat> {
    var sum := total + dirs * frames;
    if sum <= limit && sum <= U32_MAX then Some(sum) else None
  }

  lemma {:induction false} CellsPrefix(states: seq<(nat, nat)>, i: nat)
    requires i <= |states|
    ensures Cells(states[..i]) <= Cells(states)
  {
    if i < |states| {
      var init := states[..|states| - 1];
      CellsPrefix(init, i);
      assert init[..i] == states[..i];
    } else {
      assert states[..i] == states;
    }
  }
}
