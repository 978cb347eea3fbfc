/**
  The fixed 106-byte header of an AWI binary orbit file
  (`AWIOrbitThickness._parse_header`) and the list of active data-group
  slots it announces (`_get_datagroup_indices`).

  Layout: bytes 0..8 hold the longitude limits and bytes 8..16 the latitude
  limits (two little-endian 32-bit floats each, kept here as raw words);
  bytes 16..106 hold 45 little-endian signed 16-bit content flags.
*/
module BinaryHeader {
  import opened Outcomes
  import opened Bytes

  const HEADER_SIZE: nat := 106
  const N_FLAGS: nat := 45
  const FLAGS_OFFSET: nat := 16
  /** The width of one limit value (`struct` code `f`). */
  const FLOAT32_SIZE: nat := 4

  /** A pair of raw 32-bit float words, as `struct.unpack('<2f', ...)` returns. */
  datatype Limits = Limits(low: nat, high: nat)

  datatype Header = Header(lonLimit: Limits, latLimit: Limits, contentFlags: seq<int>)

  /** The two raw 32-bit words at byte offset off. */
  function LimitsAt(s: seq<Byte>, off: nat): Limits
    requires off + 2 * FLOAT32_SIZE <= |s|
  {
    Limits(LeUint(s[off .. off + FLOAT32_SIZE]), LeUint(s[off + FLOAT32_SIZE .. off + 2 * FLOAT32_SIZE]))
  }

  /** The content flag at slot i of a header. */
  function FlagAt(s: seq<Byte>, i: nat): int
    requires i < N_FLAGS && |s| >= HEADER_SIZE
  {
    Int16Le(s[FLAGS_OFFSET + 2 * i], s[FLAGS_OFFSET + 2 * i + 1])
  }

  /**
    Reads the header from the first 106 bytes of a file; a shorter file makes
    `struct.unpack` fail.
  */
  function DecodeHeader(file: seq<Byte>): (r: Result<Header>)
    ensures r.Ok? <==> |file| >= HEADER_SIZE
    ensures r.Err? ==> r.error == ShortHeader
    ensures r.Ok? ==> |r.value.contentFlags| == N_FLAGS
  {
    if |file| < HEADER_SIZE then Err(ShortHeader)
    else
      var header := file[..HEADER_SIZE];
      Ok(Header(LimitsAt(header, 0), LimitsAt(header, 2 * FLOAT32_SIZE),
                DecodeInt16s(header[FLAGS_OFFSET..HEADER_SIZE])))
  }

  /** Flag i is the signed 16-bit value at bytes 16 + 2i and 17 + 2i. */
  lemma DecodeHeaderFlags(file: seq<Byte>)
    requires |file| >= HEADER_SIZE
    ensures var flags := DecodeHeader(file).value.contentFlags;
      forall i :: 0 <= i < N_FLAGS ==> flags[i] == FlagAt(file, i) && INT16_MIN <= flags[i] <= INT16_MAX
  {
    var flagBytes := file[..HEADER_SIZE][FLAGS_OFFSET..HEADER_SIZE];
    assert forall i :: 0 <= i < N_FLAGS ==>
      flagBytes[2 * i] == file[FLAGS_OFFSET + 2 * i] && flagBytes[2 * i + 1] == file[FLAGS_OFFSET + 2 * i + 1];
  }

  /** The limits come from bytes 0..8 and 8..16 only. */
  lemma LimitsComeFromFirstSixteenBytes(f: seq<Byte>, g: seq<Byte>)
    requires |f| >= HEADER_SIZE && |g| >= HEADER_SIZE
    ensures f[..8] == g[..8] ==> DecodeHeader(f).value.lonLimit == DecodeHeader(g).value.lonLimit
    ensures f[8..16] == g[8..16] ==> DecodeHeader(f).value.latLimit == DecodeHeader(g).value.latLimit
  {
    if f[..8] == g[..8] {
      assert f[..HEADER_SIZE][0..4] == f[..8][0..4] && g[..HEADER_SIZE][0..4] == g[..8][0..4];
      assert f[..HEADER_SIZE][4..8] == f[..8][4..8] && g[..HEADER_SIZE][4..8] == g[..8][4..8];
    }
    if f[8..16] == g[8..16] {
      assert f[..HEADER_SIZE][8..12] == f[8..12] == f[8..16][0..4];
      assert g[..HEADER_SIZE][8..12] == g[8..12] == g[8..16][0..4];
      assert f[..HEADER_SIZE][12..16] == f[12..16] == f[8..16][4..8];
      assert g[..HEADER_SIZE][12..16] == g[12..16] == g[8..16][4..8];
    }
  }

  /** Nothing after byte 106 affects the header. */
  lemma HeaderComesFromFirstBytes(f: seq<Byte>, g: seq<Byte>)
    requires |f| >= HEADER_SIZE && |g| >= HEADER_SIZE
    requires f[..HEADER_SIZE] == g[..HEADER_SIZE]
    ensures DecodeHeader(f) == DecodeHeader(g)
  {
  }

  predicate WellFormed(h: Header) {
    && h.lonLimit.low < 0x1_0000_0000 && h.lonLimit.high < 0x1_0000_0000
    && h.latLimit.low < 0x1_0000_0000 && h.latLimit.high < 0x1_0000_0000
    && |h.contentFlags| == N_FLAGS
    && forall i :: 0 <= i < N_FLAGS ==> INT16_MIN <= h.contentFlags[i] <= INT16_MAX
  }

  /** The 106 bytes a header is written as. */
  function EncodeHeader(h: Header): (r: seq<Byte>)
    requires WellFormed(h)
    ensures |r| == HEADER_SIZE
  {
    assert Pow256(4) == 0x1_0000_0000;
    LeBytes(h.lonLimit.low, 4) + LeBytes(h.lonLimit.high, 4)
    + LeBytes(h.latLimit.low, 4) + LeBytes(h.latLimit.high, 4)
    + EncodeInt16s(h.contentFlags)
  }

  /** Whatever follows an encoded header, decoding gives the header back. */
  lemma DecodeHeaderOfEncodeHeader(h: Header, rest: seq<Byte>)
    requires WellFormed(h)
    ensures DecodeHeader(EncodeHeader(h) + rest) == Ok(h)
  {
    assert Pow256(4) == 0x1_0000_0000;
    var e := EncodeHeader(h);
    var header := (e + rest)[..HEADER_SIZE];
    assert header == e;
    assert e[0..4] == LeBytes(h.lonLimit.low, 4);
    assert e[4..8] == LeBytes(h.lonLimit.high, 4);
    assert e[8..12] == LeBytes(h.latLimit.low, 4);
    assert e[12..16] == LeBytes(h.latLimit.high, 4);
    var limitBytes := LeBytes(h.lonLimit.low, 4) + LeBytes(h.lonLimit.high, 4)
      + LeBytes(h.latLimit.low, 4) + LeBytes(h.latLimit.high, 4);
    assert e == limitBytes + EncodeInt16s(h.contentFlags) && |limitBytes| == FLAGS_OFFSET;
    assert e[FLAGS_OFFSET..HEADER_SIZE] == EncodeInt16s(h.contentFlags);
    LeUintOfLeBytes(h.lonLimit.low, 4);
    LeUintOfLeBytes(h.lonLimit.high, 4);
    LeUintOfLeBytes(h.latLimit.low, 4);
    LeUintOfLeBytes(h.latLimit.high, 4);
    DecodeInt16sOfEncodeInt16s(h.contentFlags);
  }

  /** A decoded header is well formed and re-encodes to the first 106 bytes of the file. */
  lemma EncodeHeaderOfDecodeHeader(file: seq<Byte>)
    requires |file| >= HEADER_SIZE
    ensures WellFormed(DecodeHeader(file).value)
    ensures EncodeHeader(DecodeHeader(file).value) == file[..HEADER_SIZE]
  {
    var h := DecodeHeader(file).value;
    var header := file[..HEADER_SIZE];
    LimitsReencode(header, 0);
    LimitsReencode(header, 2 * FLOAT32_SIZE);
    FlagsReencode(file);
    assert h.lonLimit == LimitsAt(header, 0) && h.latLimit == LimitsAt(header, 2 * FLOAT32_SIZE);
    assert file[FLAGS_OFFSET..HEADER_SIZE] == header[FLAGS_OFFSET..HEADER_SIZE];
    EncodeHeaderParts(h);
    HeaderPieces(header);
  }

  /** A header is its longitude bytes, its latitude bytes and its flag bytes. */
  lemma HeaderPieces(header: seq<Byte>)
    requires |header| == HEADER_SIZE
    ensures header[0..8] + header[8..FLAGS_OFFSET] + header[FLAGS_OFFSET..HEADER_SIZE] == header
  {
  }

  /** An encoded header is the longitude limits, the latitude limits and the flags, one after the other. */
  lemma EncodeHeaderParts(h: Header)
    requires WellFormed(h)
    ensures EncodeHeader(h)
      == (LeBytes(h.lonLimit.low, 4) + LeBytes(h.lonLimit.high, 4))
       + (LeBytes(h.latLimit.low, 4) + LeBytes(h.latLimit.high, 4))
       + EncodeInt16s(h.contentFlags)
  {
    assert Pow256(4) == 0x1_0000_0000;
  }

  /** Two raw 32-bit limit words re-encode to the eight bytes they were read from. */
  lemma LimitsReencode(s: seq<Byte>, off: nat)
    requires off + 2 * FLOAT32_SIZE <= |s|
    ensures var l := LimitsAt(s, off);
      && l.low < 0x1_0000_0000 && l.high < 0x1_0000_0000
      && LeBytes(l.low, 4) + LeBytes(l.high, 4) == s[off .. off + 2 * FLOAT32_SIZE]
  {
    assert Pow256(4) == 0x1_0000_0000;
    LeBytesOfLeUint(s[off .. off + 4]);
    LeBytesOfLeUint(s[off + 4 .. off + 8]);
    assert s[off .. off + 8] == s[off .. off + 4] + s[off + 4 .. off + 8];
  }

  /** The decoded content flags are 45 signed 16-bit values that re-encode to bytes 16..106. */
  lemma FlagsReencode(file: seq<Byte>)
    requires |file| >= HEADER_SIZE
    ensures var flags := DecodeHeader(file).value.contentFlags;
      && |flags| == N_FLAGS
      && (forall i :: 0 <= i < N_FLAGS ==> INT16_MIN <= flags[i] <= INT16_MAX)
      && EncodeInt16s(flags) == file[FLAGS_OFFSET..HEADER_SIZE]
  {
    var flags := DecodeHeader(file).value.contentFlags;
    var flagBytes := file[..HEADER_SIZE][FLAGS_OFFSET..HEADER_SIZE];
    assert flagBytes == file[FLAGS_OFFSET..HEADER_SIZE];
    assert flags == DecodeInt16s(flagBytes);
    DecodeInt16sOfEncodeInt16s(flags);
    EncodedFlagsAreInjective(EncodeInt16s(flags), flagBytes);
  }

  /** Two flag byte strings that decode alike are equal. */
  lemma {:induction false} EncodedFlagsAreInjective(a: seq<Byte>, b: seq<Byte>)
    requires |a| == |b| && |a| % 2 == 0
    requires DecodeInt16s(a) == DecodeInt16s(b)
    ensures a == b
  {
    if |a| > 0 {
      Int16BytesOfInt16Le(a[0], a[1]);
      Int16BytesOfInt16Le(b[0], b[1]);
      assert DecodeInt16s(a[2..]) == DecodeInt16s(a)[1..];
      assert DecodeInt16s(b[2..]) == DecodeInt16s(b)[1..];
      EncodedFlagsAreInjective(a[2..], b[2..]);
      assert a == [a[0], a[1]] + a[2..] && b == [b[0], b[1]] + b[2..];
    }
  }

  // ---------------------------------------------------------------------
  // Active data-group slots

  /** `np.where(content_flags.astype(bool))[0]`: the positions of the nonzero flags, ascending. */
  function ActiveIndices(flags: seq<int>): (r: seq<nat>)
    ensures |r| <= |flags|
    ensures forall i :: 0 <= i < |r| ==> r[i] < |flags| && flags[r[i]] != 0
  {
    if |flags| == 0 then []
    else
      var last := |flags| - 1;
      ActiveIndices(flags[..last]) + (if flags[last] != 0 then [last] else [])
  }

  /**
    The active slots are exactly the positions of the nonzero flags, each
    listed once and in increasing order.
  */
  lemma {:induction false} ActiveIndicesAreNonzeroSlots(flags: seq<int>)
    ensures var r := ActiveIndices(flags);
      && (forall i, j :: 0 <= i < j < |r| ==> r[i] < r[j])
      && (forall i :: 0 <= i < |r| ==> r[i] < |flags| && flags[r[i]] != 0)
      && (forall p :: 0 <= p < |flags| && flags[p] != 0 ==> p in r)
  {
    if |flags| > 0 {
      var last := |flags| - 1;
      var prefix := flags[..last];
      ActiveIndicesAreNonzeroSlots(prefix);
      assert forall p :: 0 <= p < last ==> prefix[p] == flags[p];
    }
  }
}
