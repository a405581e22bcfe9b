/**
 * The palette record of a frame (smk_render_palette): a length byte n
 * covering 4 n bytes, then commands that build a 256-entry RGB palette,
 * copying runs of entries from the previous palette or giving entries
 * literally as three 6-bit components scaled to 8 bits.
 */
module Palette {
  import opened Bits
  import opened Container

  /** The 6-bit to 8-bit colour scale of the format. */
  const PALMAP: seq<byte> :=
    [0x00, 0x04, 0x08, 0x0C, 0x10, 0x14, 0x18, 0x1C] +
    [0x20, 0x24, 0x28, 0x2C, 0x30, 0x34, 0x38, 0x3C] +
    [0x41, 0x45, 0x49, 0x4D, 0x51, 0x55, 0x59, 0x5D] +
    [0x61, 0x65, 0x69, 0x6D, 0x71, 0x75, 0x79, 0x7D] +
    [0x82, 0x86, 0x8A, 0x8E, 0x92, 0x96, 0x9A, 0x9E] +
    [0xA2, 0xA6, 0xAA, 0xAE, 0xB2, 0xB6, 0xBA, 0xBE] +
    [0xC3, 0xC7, 0xCB, 0xCF, 0xD3, 0xD7, 0xDB, 0xDF] +
    [0xE3, 0xE7, 0xEB, 0xEF, 0xF3, 0xF7, 0xFB, 0xFF]

  /** A palette is 256 entries of three bytes. */
  const PAL_BYTES := 768

  /**
   * The scale as arithmetic: a 6-bit component shifted up two bits, with its
   * top two bits filling the gap. Shifting down gives the component back, and
   * the low two bits repeat the top two.
   */
  function Scale(x: nat): (v: byte)
    requires x < 64
    ensures v / 4 == x && v % 4 == v / 64
  {
    4 * x + x / 16
  }

  /** The table is the scale, entry by entry. */
  lemma PalmapScale()
    ensures |PALMAP| == 64
    ensures forall x :: 0 <= x < 64 ==> PALMAP[x] == Scale(x)
  {
    ScaledFrom16();
    assert ScaledFrom(PALMAP, 8);
    assert ScaledFrom(PALMAP, 0);
    ScaledAbove(PALMAP, 0);
  }

  lemma ScaledFrom16()
    ensures |PALMAP| == 64 && ScaledFrom(PALMAP, 16)
  {
    ScaledFrom32();
    assert ScaledFrom(PALMAP, 24);
    assert ScaledFrom(PALMAP, 16);
  }

  lemma ScaledFrom32()
    ensures |PALMAP| == 64 && ScaledFrom(PALMAP, 32)
  {
    ScaledFrom48();
    assert ScaledFrom(PALMAP, 40);
    assert ScaledFrom(PALMAP, 32);
  }

  lemma ScaledFrom48()
    ensures |PALMAP| == 64 && ScaledFrom(PALMAP, 48)
  {
    assert ScaledFrom(PALMAP, 56);
    assert ScaledFrom(PALMAP, 48);
  }

  /** Entries n onwards of a 64-entry table follow the scale. */
  predicate ScaledFrom(s: seq<byte>, n: nat)
    requires |s| == 64
    decreases 64 - n
  {
    n >= 64 || (s[n] == Scale(n) && ScaledFrom(s, n + 1))
  }

  lemma {:induction false} ScaledAbove(s: seq<byte>, n: nat)
    requires |s| == 64 && ScaledFrom(s, n)
    ensures forall x :: n <= x < 64 ==> s[x] == Scale(x)
    decreases 64 - n
  {
    if n < 64 {
      ScaledAbove(s, n + 1);
    }
  }

  /** The buffer a new palette starts from; malloc leaves it uninitialised and this model reads that as zeros. */
  function Blank(): (z: seq<byte>)
    ensures |z| == PAL_BYTES
  {
    seq(PAL_BYTES, x => 0)
  }

  /** The previous palette, when there is one, is a whole palette. */
  predicate PrevOk(prev: Option<seq<byte>>)
  {
    prev.Some? ==> |prev.value| == PAL_BYTES
  }

  /**
   * Copying k entries of the previous palette from entry j to entry i of the
   * new one: nothing is written when either run leaves the palette, and
   * zeros are written when there is no previous palette.
   */
  function Copy(t: seq<byte>, i: nat, j: nat, k: nat, prev: Option<seq<byte>>): (r: seq<byte>)
    requires |t| == PAL_BYTES && PrevOk(prev)
    ensures |r| == PAL_BYTES
  {
    if j + k > 256 || i + k > 256 then t
    else
      var run := if prev.Some? then prev.value[3 * j..3 * (j + k)] else seq(3 * k, _ => 0);
      t[..3 * i] + run + t[3 * (i + k)..]
  }

  /** Byte by byte: a copy that fits replaces entries i to i + k - 1 with old entries j to j + k - 1 (or zeros), and leaves every other byte. */
  lemma CopyBytes(t: seq<byte>, i: nat, j: nat, k: nat, prev: Option<seq<byte>>)
    requires |t| == PAL_BYTES && PrevOk(prev)
    ensures forall x :: 0 <= x < PAL_BYTES ==>
      Copy(t, i, j, k, prev)[x] == if i + k <= 256 && j + k <= 256 && 3 * i <= x < 3 * (i + k)
                                   then (if prev.Some? then prev.value[x - 3 * i + 3 * j] else 0)
                                   else t[x]
  {
  }

  /** A palette command: copy count entries of the old palette from entry from, or set one entry's three components. */
  datatype Cmd = Run(from: nat, count: nat) | Entry(r: byte, g: byte, b: byte)

  /**
   * The command at rec[at], with j the running old-palette index, and the
   * offset after it. Bit 7: copy (c & 0x7F) + 1 entries from j. Bit 6: copy
   * (c & 0x3F) + 1 entries from the entry the next byte names. Otherwise c
   * and the next two bytes are one entry's components, mapped through the
   * scale. No command where it runs past the record or a component is past
   * the end of the scale.
   */
  function DecodeCmd(rec: seq<byte>, at: nat, j: nat): (r: Option<(Cmd, nat)>)
    requires at < |rec|
    ensures r.Some? ==> at < r.value.1 <= |rec|
    ensures r.Some? && r.value.0.Run? ==> 1 <= r.value.0.count <= 128
    ensures r.Some? && r.value.0.Entry? ==> Scaled(r.value.0.r) && Scaled(r.value.0.g) && Scaled(r.value.0.b)
    ensures r.None? <==>
      rec[at] < 0x80 && if rec[at] >= 0x40 then at + 1 >= |rec| else at + 3 > |rec| || rec[at + 1] >= 64 || rec[at + 2] >= 64
  {
    var c := rec[at] as nat;
    if c >= 0x80 then Some((Run(j, c - 0x80 + 1), at + 1))
    else if c >= 0x40 then
      if at + 1 >= |rec| then None else Some((Run(rec[at + 1] as nat, c - 0x40 + 1), at + 2))
    else if at + 3 > |rec| || rec[at + 1] >= 64 || rec[at + 2] >= 64 then None
    else Some((Entry(Scale(c), Scale(rec[at + 1] as nat), Scale(rec[at + 2] as nat)), at + 3))
  }

  /** A command applied at new entry i. */
  function Apply(t: seq<byte>, i: nat, cmd: Cmd, prev: Option<seq<byte>>): (r: seq<byte>)
    requires |t| == PAL_BYTES && i < 256 && PrevOk(prev)
    ensures |r| == PAL_BYTES
  {
    match cmd
    case Run(from, count) => Copy(t, i, from, count, prev)
    case Entry(r, g, b) => t[3 * i := r][3 * i + 1 := g][3 * i + 2 := b]
  }

  /** The loop state: command offset in the record, new entry i, old entry j, the palette so far. */
  datatype PalState = PalState(at: nat, i: nat, j: nat, t: seq<byte>)

  /** One pass of the loop: a copy moves both i and j past the run, an entry moves i by one. */
  function PalStep(rec: seq<byte>, s: PalState, prev: Option<seq<byte>>): (r: Option<PalState>)
    requires s.at < |rec| && s.i < 256 && |s.t| == PAL_BYTES && PrevOk(prev)
    ensures r.Some? ==> s.at < r.value.at <= |rec| && s.i < r.value.i && |r.value.t| == PAL_BYTES
  {
    match DecodeCmd(rec, s.at, s.j)
    case None => None
    case Some((cmd, at)) =>
      var t := Apply(s.t, s.i, cmd, prev);
      match cmd
      case Run(from, count) => Some(PalState(at, s.i + count, from + count, t))
      case Entry(_, _, _) => Some(PalState(at, s.i + 1, s.j, t))
  }

  /** The command loop: runs while the new palette is not full and the record has bytes left. */
  function PalLoop(rec: seq<byte>, s: PalState, prev: Option<seq<byte>>): (r: Option<seq<byte>>)
    requires s.at <= |rec| && |s.t| == PAL_BYTES && PrevOk(prev)
    ensures r.Some? ==> |r.value| == PAL_BYTES
    decreases |rec| - s.at
  {
    if s.i >= 256 || s.at >= |rec| then Some(s.t)
    else
      match PalStep(rec, s, prev)
      case None => None
      case Some(s2) => PalLoop(rec, s2, prev)
  }

  /** A palette record: its outcome and the offset after it. */
  datatype PalOut = PalOut(pal: Option<seq<byte>>, next: nat)

  /**
   * The palette record at offset p of a chunk. Disabled, it is skipped and
   * the palette kept. Enabled, the palette is rebuilt from a zeroed one.
   * No result when the record leaves the chunk or has no bytes after its
   * length byte.
   */
  function RenderPaletteSpec(chunk: seq<byte>, p: nat, enabled: bool, prev: Option<seq<byte>>): (r: Option<PalOut>)
    requires PrevOk(prev)
    ensures r.Some? ==> p < |chunk| && r.value.next == p + 4 * (chunk[p] as nat) <= |chunk|
    ensures r.Some? ==> PrevOk(r.value.pal)
    ensures r.Some? && !enabled ==> r.value.pal == prev
    ensures r.Some? && enabled ==> r.value.pal.Some?
    ensures p < |chunk| && p + 4 * (chunk[p] as nat) <= |chunk| && !enabled ==> r.Some?
  {
    if p >= |chunk| || p + 4 * (chunk[p] as nat) > |chunk| then None
    else if !enabled then Some(PalOut(prev, p + 4 * (chunk[p] as nat)))
    else if chunk[p] == 0 then None
    else
      match PalLoop(chunk[p + 1..p + 4 * (chunk[p] as nat)], PalState(0, 0, 0, Blank()), prev)
      case None => None
      case Some(t) => Some(PalOut(Some(t), p + 4 * (chunk[p] as nat)))
  }

  /** A byte the scale can produce: its low two bits repeat its top two. */
  predicate Scaled(v: byte)
  {
    v % 4 == v / 64
  }

  /** Where a byte of the new palette can come from: zero, the scale, or the same component of an old entry. */
  predicate Sourced(v: byte, x: nat, prev: Option<seq<byte>>)
    requires PrevOk(prev)
  {
    v == 0 || Scaled(v) || (prev.Some? && exists y :: 0 <= y < 256 && prev.value[3 * y + x % 3] == v)
  }

  predicate AllSourced(t: seq<byte>, prev: Option<seq<byte>>)
    requires PrevOk(prev)
  {
    forall x :: 0 <= x < |t| ==> Sourced(t[x], x, prev)
  }

  /** Every byte of a rebuilt palette is zero, a scaled component, or the same component of an entry of the previous palette. */
  lemma {:induction false} PaletteProvenance(rec: seq<byte>, s: PalState, prev: Option<seq<byte>>)
    requires s.at <= |rec| && |s.t| == PAL_BYTES && PrevOk(prev) && AllSourced(s.t, prev)
    ensures PalLoop(rec, s, prev).Some? ==> AllSourced(PalLoop(rec, s, prev).value, prev)
    decreases |rec| - s.at
  {
    if s.i < 256 && s.at < |rec| {
      match PalStep(rec, s, prev)
      case None =>
      case Some(s2) =>
        StepSourced(rec, s, prev);
        PaletteProvenance(rec, s2, prev);
    }
  }

  lemma StepSourced(rec: seq<byte>, s: PalState, prev: Option<seq<byte>>)
    requires s.at < |rec| && s.i < 256 && |s.t| == PAL_BYTES && PrevOk(prev) && AllSourced(s.t, prev)
    ensures PalStep(rec, s, prev).Some? ==> AllSourced(PalStep(rec, s, prev).value.t, prev)
  {
    match DecodeCmd(rec, s.at, s.j)
    case None =>
    case Some((cmd, _)) =>
      match cmd
      case Run(from, count) => CopySourced(s.t, s.i, from, count, prev);
      case Entry(r, g, b) => LiteralSourced(s.t, 3 * s.i, r, g, b, prev);
  }

  lemma LiteralSourced(t: seq<byte>, x: nat, a: byte, b: byte, c: byte, prev: Option<seq<byte>>)
    requires |t| == PAL_BYTES && x + 2 < PAL_BYTES && PrevOk(prev) && AllSourced(t, prev)
    requires Scaled(a) && Scaled(b) && Scaled(c)
    ensures AllSourced(t[x := a][x + 1 := b][x + 2 := c], prev)
  {
    var t2 := t[x := a][x + 1 := b][x + 2 := c];
    forall y | 0 <= y < PAL_BYTES
      ensures Sourced(t2[y], y, prev)
    {
      if y != x && y != x + 1 && y != x + 2 {
        assert t2[y] == t[y];
      }
    }
  }

  lemma CopySourced(t: seq<byte>, i: nat, j: nat, k: nat, prev: Option<seq<byte>>)
    requires |t| == PAL_BYTES && PrevOk(prev) && AllSourced(t, prev)
    ensures AllSourced(Copy(t, i, j, k, prev), prev)
  {
    var r := Copy(t, i, j, k, prev);
    CopyBytes(t, i, j, k, prev);
    forall x | 0 <= x < PAL_BYTES
      ensures Sourced(r[x], x, prev)
    {
      if i + k <= 256 && j + k <= 256 && 3 * i <= x < 3 * (i + k) && prev.Some? {
        var y := x / 3 - i + j;
        assert 3 * y + x % 3 == x - 3 * i + 3 * j;
      }
    }
  }

  /**
   * smk_render_palette, the enabled and disabled paths, with the palette
   * built in place in a 768-byte buffer.
   */
  method RenderPalette(chunk: seq<byte>, p: nat, enabled: bool, prev: Option<seq<byte>>) returns (r: Option<PalOut>)
    requires PrevOk(prev)
    ensures r == RenderPaletteSpec(chunk, p, enabled, prev)
  {
    if p >= |chunk| || p + 4 * (chunk[p] as nat) > |chunk| {
      return None;
    }
    var size := 4 * (chunk[p] as nat);
    if !enabled {
      return Some(PalOut(prev, p + size));
    }
    if size == 0 {
      return None;
    }
    var pal := RebuildPalette(chunk[p + 1..p + size], prev);
    return match pal case None => None case Some(t) => Some(PalOut(Some(t), p + size));
  }

  /** The command loop of smk_render_palette, filling a fresh zeroed buffer. */
  method RebuildPalette(rec: seq<byte>, prev: Option<seq<byte>>) returns (r: Option<seq<byte>>)
    requires PrevOk(prev)
    ensures r == PalLoop(rec, PalState(0, 0, 0, Blank()), prev)
  {
    var t := new byte[PAL_BYTES](_ => 0);
    var at: nat, i: nat, j: nat := 0, 0, 0;
    ghost var s0 := PalState(0, 0, 0, Blank());
    assert t[..] == Blank();
    while i < 256 && at < |rec|
      invariant at <= |rec| && t.Length == PAL_BYTES
      invariant PalLoop(rec, PalState(at, i, j, t[..]), prev) == PalLoop(rec, s0, prev)
      decreases |rec| - at
    {
      var ok;
      ok, at, i, j := Command(rec, t, at, i, j, prev);
      if !ok {
        return None;
      }
    }
    return Some(t[..]);
  }

  /** One pass of the loop body: decode the command at rec[at] and apply it to the buffer. */
  method Command(rec: seq<byte>, t: array<byte>, at: nat, i: nat, j: nat, prev: Option<seq<byte>>)
      returns (ok: bool, at2: nat, i2: nat, j2: nat)
    requires at < |rec| && i < 256 && t.Length == PAL_BYTES && PrevOk(prev)
    modifies t
    ensures ok <==> PalStep(rec, PalState(at, i, j, old(t[..])), prev).Some?
    ensures ok ==> PalStep(rec, PalState(at, i, j, old(t[..])), prev) == Some(PalState(at2, i2, j2, t[..]))
  {
    ghost var s := PalState(at, i, j, t[..]);
    var d := DecodeCmd(rec, at, j);
    if d.None? {
      return false, at, i, j;
    }
    var cmd, next := d.value.0, d.value.1;
    if cmd.Run? {
      CopyInto(t, i, cmd.from, cmd.count, prev);
      ok, at2, i2, j2 := true, next, i + cmd.count, cmd.from + cmd.count;
    } else {
      SetEntry(t, 3 * i, cmd.r, cmd.g, cmd.b);
      ok, at2, i2, j2 := true, next, i + 1, j;
    }
    StepIs(rec, s, prev, cmd, next);
  }

  lemma StepIs(rec: seq<byte>, s: PalState, prev: Option<seq<byte>>, cmd: Cmd, next: nat)
    requires s.at < |rec| && s.i < 256 && |s.t| == PAL_BYTES && PrevOk(prev)
    requires DecodeCmd(rec, s.at, s.j) == Some((cmd, next))
    ensures cmd.Run? ==> PalStep(rec, s, prev) == Some(PalState(next, s.i + cmd.count, cmd.from + cmd.count, Copy(s.t, s.i, cmd.from, cmd.count, prev)))
    ensures cmd.Entry? ==> PalStep(rec, s, prev) == Some(PalState(next, s.i + 1, s.j, s.t[3 * s.i := cmd.r][3 * s.i + 1 := cmd.g][3 * s.i + 2 := cmd.b]))
  {
  }

  /** The three component writes of a literal entry. */
  method SetEntry(t: array<byte>, x: nat, a: byte, b: byte, c: byte)
    requires x + 2 < t.Length
    modifies t
    ensures t[..] == old(t[..])[x := a][x + 1 := b][x + 2 := c]
  {
    t[x] := a;
    t[x + 1] := b;
    t[x + 2] := c;
  }

  /** The memcpy / memset of a copy command, on the buffer. */
  method CopyInto(t: array<byte>, i: nat, j: nat, k: nat, prev: Option<seq<byte>>)
    requires t.Length == PAL_BYTES && PrevOk(prev)
    modifies t
    ensures t[..] == Copy(old(t[..]), i, j, k, prev)
  {
    if j + k > 256 || i + k > 256 {
      return;
    }
    ghost var t0 := t[..];
    CopyBytes(t0, i, j, k, prev);
    for x := 0 to 3 * k
      invariant forall y :: 0 <= y < PAL_BYTES ==>
        t[y] == if 3 * i <= y < 3 * i + x then (if prev.Some? then prev.value[y - 3 * i + 3 * j] else 0) else t0[y]
    {
      t[3 * i + x] := if prev.Some? then prev.value[3 * j + x] else 0;
    }
  }
}
