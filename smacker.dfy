/**
 * The decoder's handle (smacker.c): the opened file, the frame cursor, the
 * user switches and the decoded palette, frame and audio tracks.
 * smk_render decodes the records of the current frame's chunk in a fixed
 * order: the palette record when bit 0 of the frame type is set, then the
 * record of audio track t for each bit t + 1 that is set, then the video
 * record, which takes the rest of the chunk. smk_first, smk_next and
 * smk_seek_keyframe move the cursor and render.
 */
module Smacker {
  import opened Bits
  import opened Container
  import Palette
  import Audio
  import Video

  /** smk_next's and smk_first's answers. */
  const DONE: int := 0
  const MORE: int := 1
  const LAST: int := 2

  /** What the handle holds decoded: the palette, the video frame and the seven audio tracks. */
  datatype Output = Output(palette: Option<seq<byte>>, video: Option<seq<byte>>, tracks: seq<Audio.Track>)

  /** The switches smk_enable_palette, smk_enable_video and smk_enable_audio set. */
  datatype Switches = Switches(palette: bool, video: bool, audio: seq<bool>)

  predicate SwitchesOk(on: Switches)
  {
    |on.audio| == 7
  }

  /** Every switch off, as a freshly opened handle has them. */
  function Off(): (on: Switches)
    ensures SwitchesOk(on) && !on.palette && !on.video && forall t :: 0 <= t < 7 ==> !on.audio[t]
  {
    Switches(false, false, seq(7, t => false))
  }

  predicate OutputOk(f: SmkFile, o: Output)
  {
    Palette.PrevOk(o.palette) && Video.FrameOk(o.video, f.header.w, f.header.h) && |o.tracks| == 7
  }

  /** Bit k of a frame-type byte: bit 0 the palette record, bit t + 1 the record of audio track t. */
  predicate Has(ft: byte, k: nat)
  {
    BitOf(ft, k)
  }

  // ---------------------------------------------------------------------
  // The layout of a chunk
  // ---------------------------------------------------------------------

  /**
   * Where the audio records of tracks t to 6 end when the first starts at
   * p, by their leading length words alone; nothing when one of them does
   * not fit in the chunk.
   */
  function AudioEnd(chunk: seq<byte>, ft: byte, t: nat, p: nat): (r: Option<nat>)
    requires t <= 7
    decreases 7 - t
  {
    if t == 7 then Some(p)
    else if !Has(ft, t + 1) then AudioEnd(chunk, ft, t + 1, p)
    else if p + 4 > |chunk| || p + GrabUi(chunk, p) > |chunk| then None
    else AudioEnd(chunk, ft, t + 1, p + GrabUi(chunk, p))
  }

  /**
   * Where the video record of a chunk starts: after a palette record four
   * times its first byte long, when there is one, and the audio records.
   */
  function VideoStart(chunk: seq<byte>, ft: byte): (r: Option<nat>)
  {
    if !Has(ft, 0) then AudioEnd(chunk, ft, 0, 0)
    else if |chunk| == 0 || 4 * (chunk[0] as nat) > |chunk| then None
    else AudioEnd(chunk, ft, 0, 4 * (chunk[0] as nat))
  }

  // ---------------------------------------------------------------------
  // Rendering a frame
  // ---------------------------------------------------------------------

  /** The palette record, when the frame type has one; otherwise the palette as it was and offset 0. */
  function PaletteStep(chunk: seq<byte>, ft: byte, enabled: bool, prev: Option<seq<byte>>): (r: Option<Palette.PalOut>)
    requires Palette.PrevOk(prev)
    ensures r.Some? ==> Palette.PrevOk(r.value.pal) && r.value.next <= |chunk|
    ensures r.Some? && (!Has(ft, 0) || !enabled) ==> r.value.pal == prev
    ensures r.Some? ==> VideoStart(chunk, ft) == AudioEnd(chunk, ft, 0, r.value.next)
  {
    if Has(ft, 0) then Palette.RenderPaletteSpec(chunk, 0, enabled, prev) else Some(Palette.PalOut(prev, 0))
  }

  /**
   * The audio records of tracks t to 6 from offset p: each track whose bit
   * is set decodes its record and the next record follows it. A track
   * whose bit is clear, or that is disabled, keeps what it had; the records
   * end where their length words say.
   */
  function Tracks(chunk: seq<byte>, ft: byte, infos: seq<AudioInfo>, on: seq<bool>, t: nat, p: nat,
                  tracks: seq<Audio.Track>): (r: Option<(seq<Audio.Track>, nat)>)
    requires |infos| == 7 && (forall k :: 0 <= k < 7 ==> AudioInfoOk(infos[k]))
    requires |on| == 7 && |tracks| == 7 && t <= 7 && p <= |chunk|
    ensures r.Some? ==> |r.value.0| == 7 && p <= r.value.1 <= |chunk|
    ensures r.Some? ==> forall k :: 0 <= k < 7 && (k < t || !Has(ft, k + 1) || !on[k]) ==> r.value.0[k] == tracks[k]
    ensures r.Some? ==> AudioEnd(chunk, ft, t, p) == Some(r.value.1)
    decreases 7 - t
  {
    if t == 7 then Some((tracks, p))
    else if !Has(ft, t + 1) then Tracks(chunk, ft, infos, on, t + 1, p, tracks)
    else
      match Audio.RenderAudioSpec(chunk, p, infos[t], on[t], tracks[t])
      case None => None
      case Some((track, q)) => Tracks(chunk, ft, infos, on, t + 1, q, tracks[t := track])
  }

  /**
   * smk_render on frame i: the palette record, the audio records, then the
   * video record from where they end. No result when a record does not fit
   * in the chunk or one of the decoders has none.
   */
  function RenderSpec(f: SmkFile, on: Switches, i: nat, o: Output): (r: Option<Output>)
    requires FileOk(f) && SwitchesOk(on) && OutputOk(f, o) && i < |f.chunks|
    ensures r.Some? ==> OutputOk(f, r.value) && VideoStart(f.chunks[i], f.frameType[i]).Some?
    ensures r.Some? && (!Has(f.frameType[i], 0) || !on.palette) ==> r.value.palette == o.palette
    ensures r.Some? ==> forall t :: 0 <= t < 7 && (!Has(f.frameType[i], t + 1) || !on.audio[t]) ==> r.value.tracks[t] == o.tracks[t]
    ensures r.Some? && !on.video ==> r.value.video == o.video
  {
    var chunk, ft := f.chunks[i], f.frameType[i];
    match PaletteStep(chunk, ft, on.palette, o.palette)
    case None => None
    case Some(po) =>
      match Tracks(chunk, ft, f.header.audio, on.audio, 0, po.next, o.tracks)
      case None => None
      case Some((tracks, p)) =>
        match Video.RenderVideoSpec(chunk, p, on.video, f.header.version == 0x34, f.header.w, f.header.h, f.trees, o.video)
        case None => None
        case Some(v) => Some(Output(po.pal, v, tracks))
  }

  /** The handle's output after rendering frame i: the rendered one, or the old one when there is none. */
  function Rendered(f: SmkFile, on: Switches, i: nat, o: Output): (r: Output)
    requires FileOk(f) && SwitchesOk(on) && OutputOk(f, o) && i < |f.chunks|
    ensures OutputOk(f, r)
  {
    match RenderSpec(f, on, i, o)
    case Some(o2) => o2
    case None => o
  }

  /** With every switch off, rendering a frame whose records fit changes nothing. */
  lemma Silent(f: SmkFile, i: nat, o: Output)
    requires FileOk(f) && OutputOk(f, o) && i < |f.chunks| && VideoStart(f.chunks[i], f.frameType[i]).Some?
    ensures RenderSpec(f, Off(), i, o) == Some(o)
  {
    var chunk, ft := f.chunks[i], f.frameType[i];
    var po := PaletteStep(chunk, ft, false, o.palette);
    assert po == Some(Palette.PalOut(o.palette, if Has(ft, 0) then 4 * (chunk[0] as nat) else 0));
    SilentTracks(chunk, ft, f.header.audio, 0, po.value.next, o.tracks);
  }

  /** Disabled tracks skip their records and keep what they had. */
  lemma {:induction false} SilentTracks(chunk: seq<byte>, ft: byte, infos: seq<AudioInfo>, t: nat, p: nat, tracks: seq<Audio.Track>)
    requires |infos| == 7 && (forall k :: 0 <= k < 7 ==> AudioInfoOk(infos[k]))
    requires |tracks| == 7 && t <= 7 && p <= |chunk| && AudioEnd(chunk, ft, t, p).Some?
    ensures Tracks(chunk, ft, infos, Off().audio, t, p, tracks) == Some((tracks, AudioEnd(chunk, ft, t, p).value))
    decreases 7 - t
  {
    if t < 7 {
      if !Has(ft, t + 1) {
        SilentTracks(chunk, ft, infos, t + 1, p, tracks);
      } else {
        var q := p + GrabUi(chunk, p);
        assert Audio.RenderAudioSpec(chunk, p, infos[t], false, tracks[t]) == Some((tracks[t], q));
        assert tracks[t := tracks[t]] == tracks;
        SilentTracks(chunk, ft, infos, t + 1, q, tracks);
      }
    }
  }

  /** smk_render's loop over the seven audio tracks, from offset p. */
  method RenderTracks(chunk: seq<byte>, ft: byte, infos: seq<AudioInfo>, on: seq<bool>, p0: nat, tracks0: seq<Audio.Track>)
      returns (r: Option<(seq<Audio.Track>, nat)>)
    requires |infos| == 7 && (forall k :: 0 <= k < 7 ==> AudioInfoOk(infos[k]))
    requires |on| == 7 && |tracks0| == 7 && p0 <= |chunk|
    ensures r == Tracks(chunk, ft, infos, on, 0, p0, tracks0)
  {
    var tracks: seq<Audio.Track>, p: nat := tracks0, p0;
    for t := 0 to 7
      invariant |tracks| == 7 && p <= |chunk|
      invariant Tracks(chunk, ft, infos, on, 0, p0, tracks0) == Tracks(chunk, ft, infos, on, t, p, tracks)
    {
      if Has(ft, t + 1) {
        var a := Audio.RenderAudio(chunk, p, infos[t], on[t], tracks[t]);
        if a.None? {
          return None;
        }
        tracks, p := tracks[t := a.value.0], a.value.1;
      }
    }
    return Some((tracks, p));
  }

  // ---------------------------------------------------------------------
  // The frame cursor
  // ---------------------------------------------------------------------

  /** The frame smk_seek_keyframe lands on: the greatest index up to f that is 0 or a keyframe. */
  function SeekTarget(keyframe: seq<bool>, f: nat): (k: nat)
    requires f < |keyframe|
    ensures k <= f && (k == 0 || keyframe[k])
    ensures forall j :: k < j <= f ==> !keyframe[j]
  {
    if f == 0 || keyframe[f] then f else SeekTarget(keyframe, f - 1)
  }

  // ---------------------------------------------------------------------
  // The handle
  // ---------------------------------------------------------------------

  class Smk {
    /** The opened file: header, frame tables, video trees and chunks. */
    const file: SmkFile
    /** cur_frame */
    var cur: nat
    var on: Switches
    var out: Output

    ghost predicate Valid()
      reads this
    {
      FileOk(file) && SwitchesOk(on) && OutputOk(file, out) && (cur == 0 || cur < |file.chunks|)
    }

    /** The handle smk_open_file returns for an opened file: frame 0, every switch off, nothing decoded. */
    constructor (f: SmkFile)
      requires FileOk(f)
      ensures Valid() && file == f && cur == 0 && on == Off()
      ensures out == Output(None, None, seq(7, t => Audio.Track(None, 0)))
    {
      file := f;
      cur := 0;
      on := Off();
      out := Output(None, None, seq(7, t => Audio.Track(None, 0)));
    }

    /** smk_enable_palette */
    method EnablePalette(v: byte)
      requires Valid()
      modifies this
      ensures Valid() && on == old(on).(palette := v != 0) && cur == old(cur) && out == old(out)
    {
      on := on.(palette := v != 0);
    }

    /** smk_enable_video */
    method EnableVideo(v: byte)
      requires Valid()
      modifies this
      ensures Valid() && on == old(on).(video := v != 0) && cur == old(cur) && out == old(out)
    {
      on := on.(video := v != 0);
    }

    /** smk_enable_audio: the switch of track t, one of the seven. */
    method EnableAudio(t: nat, v: byte)
      requires Valid() && t < 7
      modifies this
      ensures Valid() && on == old(on).(audio := old(on).audio[t := v != 0]) && cur == old(cur) && out == old(out)
    {
      on := on.(audio := on.audio[t := v != 0]);
    }

    /** smk_render on the current frame: the records in chunk order, the output replaced when all of them decode. */
    method Render()
      requires Valid() && cur < |file.chunks|
      modifies this
      ensures Valid() && cur == old(cur) && on == old(on)
      ensures out == Rendered(file, on, cur, old(out))
    {
      var chunk, ft := file.chunks[cur], file.frameType[cur];
      var p: nat := 0;
      var pal := out.palette;
      if Has(ft, 0) {
        var po := Palette.RenderPalette(chunk, 0, on.palette, pal);
        if po.None? {
          return;
        }
        pal, p := po.value.pal, po.value.next;
      }
      assert PaletteStep(chunk, ft, on.palette, out.palette) == Some(Palette.PalOut(pal, p));
      var audio := RenderTracks(chunk, ft, file.header.audio, on.audio, p, out.tracks);
      if audio.None? {
        return;
      }
      var (tracks, q) := audio.value;
      p := q;
      var v := Video.RenderVideo(chunk, p, on.video, file.header.version == 0x34, file.header.w, file.header.h, file.trees, out.video);
      if v.None? {
        return;
      }
      out := Output(pal, v.value, tracks);
    }

    /** smk_first: frame 0, rendered; LAST when it is the only frame, MORE otherwise. */
    method First() returns (code: int)
      requires Valid() && |file.chunks| > 0
      modifies this
      ensures Valid() && cur == 0 && on == old(on) && out == Rendered(file, on, 0, old(out))
      ensures code == if |file.chunks| == 1 then LAST else MORE
    {
      cur := 0;
      Render();
      if file.header.frames == 1 {
        return LAST;
      }
      return MORE;
    }

    /**
     * smk_next: the next frame, rendered, when there is one (LAST when it is
     * the final frame, MORE otherwise); DONE, without moving, at the end.
     */
    method Next() returns (code: int)
      requires Valid()
      modifies this
      ensures Valid() && on == old(on)
      ensures old(cur) + 1 < |file.chunks| ==>
                cur == old(cur) + 1 && out == Rendered(file, on, cur, old(out)) &&
                code == if cur + 1 == |file.chunks| then LAST else MORE
      ensures old(cur) + 1 >= |file.chunks| ==> cur == old(cur) && out == old(out) && code == DONE
    {
      if cur + 1 < file.header.frames {
        cur := cur + 1;
        Render();
        if cur + 1 == file.header.frames {
          return LAST;
        }
        return MORE;
      }
      return DONE;
    }

    /** smk_seek_keyframe: back from frame f to the nearest keyframe (or frame 0), rendered; that frame's index. */
    method SeekKeyframe(f: nat) returns (at: nat)
      requires Valid() && f < |file.chunks|
      modifies this
      ensures Valid() && on == old(on)
      ensures at == cur == SeekTarget(file.keyframe, f) && out == Rendered(file, on, cur, old(out))
    {
      cur := f;
      while cur > 0 && !file.keyframe[cur]
        invariant cur <= f && SeekTarget(file.keyframe, cur) == SeekTarget(file.keyframe, f)
        invariant on == old(on) && out == old(out)
        decreases cur
      {
        cur := cur - 1;
      }
      Render();
      return cur;
    }
  }
}
