/** The transfer header of cmd/filetransfer/main.go: the sender writes the file's
    base name, a zero terminator and zero padding into a fixed 100-byte buffer;
    the receiver checks that a full header arrived and decodes the name by
    scanning up to the first zero byte. */
module Framing {
  import opened Bytes

  /** `maxNameSize`: the fixed size of the header, terminator included. */
  const MaxNameSize: nat := 100

  const Nul: Byte := 0x00
  const Slash: Byte := 0x2F

  // ---------------------------------------------------------------------------
  // Base name (`path.Split`)
  // ---------------------------------------------------------------------------

  /** Index of the last '/' in `p`, or -1 when there is none (`strings.LastIndex`). */
  function LastSlash(p: GoString): (i: int)
    ensures -1 <= i < |p|
    ensures i >= 0 ==> p[i] == Slash
    ensures forall k | i < k < |p| :: p[k] != Slash
  {
    if p == [] then -1
    else if p[|p| - 1] == Slash then |p| - 1
    else LastSlash(p[..|p| - 1])
  }

  /** The file part of `path.Split(p)`: everything after the last '/'. It is the
      longest suffix of `p` without a '/'. */
  function BaseName(p: GoString): (name: GoString)
    ensures Slash !in name
    ensures |name| <= |p| && name == p[|p| - |name|..]
    ensures |name| < |p| ==> p[|p| - |name| - 1] == Slash
  {
    p[LastSlash(p) + 1..]
  }

  // ---------------------------------------------------------------------------
  // Encoding (sender)
  // ---------------------------------------------------------------------------

  function Zeros(n: nat): (z: seq<Byte>)
    ensures |z| == n && forall i | 0 <= i < n :: z[i] == Nul
  {
    seq(n, _ => Nul)
  }

  /** The header the sender writes for `name`: exactly `MaxNameSize` bytes, the
      name's bytes first, then a zero terminator, then zero padding. Only names
      of at most 99 bytes fit. */
  function Header(name: GoString): (h: seq<Byte>)
    requires |name| < MaxNameSize
    ensures |h| == MaxNameSize
    ensures h[..|name|] == name
    ensures h[|name|] == Nul
    ensures forall i | |name| < i < MaxNameSize :: h[i] == Nul
  {
    name + [Nul] + Zeros(MaxNameSize - |name| - 1)
  }

  /** Outcome of the sender's header loop: the filled buffer, or Go's run-time
      panic "index out of range [index] with length length". */
  datatype Encoding = Encoded(header: seq<Byte>) | IndexOutOfRange(index: int, length: int)

  /** The sender's header loop: a zero-filled buffer of `MaxNameSize` bytes into
      which `name + "\x00"` is copied byte by byte. A name of 100 bytes or more
      runs the index off the end of the buffer, and nothing checks for this
      beforehand. */
  method EncodeHeader(name: GoString) returns (r: Encoding)
    ensures |name| < MaxNameSize ==> r == Encoded(Header(name))
    ensures |name| >= MaxNameSize ==> r == IndexOutOfRange(MaxNameSize, MaxNameSize)
  {
    var header := new Byte[MaxNameSize](_ => Nul);
    var payload := name + [Nul];
    for i := 0 to |payload|
      invariant i <= header.Length
      invariant header[..i] == payload[..i]
      invariant forall k | i <= k < header.Length :: header[k] == Nul
    {
      if i >= header.Length {
        return IndexOutOfRange(i, header.Length);
      }
      header[i] := payload[i];
    }
    assert header[..] == Header(name) by {
      assert header[..] == header[..|payload|] + header[|payload|..];
      assert header[|payload|..] == Zeros(MaxNameSize - |name| - 1);
    }
    return Encoded(header[..]);
  }

  // ---------------------------------------------------------------------------
  // Decoding (receiver)
  // ---------------------------------------------------------------------------

  /** Position of the first zero byte of `h`, or `|h|` when there is none. */
  function NulIndex(h: seq<Byte>): (n: nat)
    ensures n <= |h|
    ensures forall k | 0 <= k < n :: h[k] != Nul
    ensures n < |h| ==> h[n] == Nul
  {
    if h == [] || h[0] == Nul then 0 else 1 + NulIndex(h[1..])
  }

  /** Go's `string(b)` for a byte `b`: the conversion treats `b` as a rune (a
      Unicode code point) and yields its UTF-8 encoding, so a byte of 0x80 or
      more becomes the two bytes 0xC0|(b>>6), 0x80|(b&0x3F). */
  function RuneBytes(b: Byte): (u: GoString)
    ensures b < 0x80 ==> u == [b]
    ensures b >= 0x80 ==>
      && |u| == 2
      && 0xC0 <= u[0] < 0xE0 && 0x80 <= u[1] < 0xC0
      && (u[0] as int - 0xC0) * 0x40 + (u[1] as int - 0x80) == b
  {
    if b < 0x80 then [b] else [0xC0 + b / 0x40, 0x80 + b % 0x40]
  }

  /** The string built by `fileName += string(char)` for each byte of `s`. */
  function RuneString(s: seq<Byte>): GoString
  {
    if s == [] then [] else RuneBytes(s[0]) + RuneString(s[1..])
  }

  /** The name the receiver decodes from a header, as written: every byte before
      the first zero byte, each converted with `string(char)`. Read as UTF-8,
      the name spells those bytes as code points, and it is longer than them by
      the number of bytes of 0x80 or more among them. */
  function DecodeName(h: seq<Byte>): (name: GoString)
    ensures Utf8Runes(name) == Some(h[..NulIndex(h)])
    ensures |name| == NulIndex(h) + HighCount(h[..NulIndex(h)])
  {
    Utf8RunesOfRuneString(h[..NulIndex(h)]);
    RuneStringLength(h[..NulIndex(h)]);
    RuneString(h[..NulIndex(h)])
  }

  /** The receiver's decoding loop over the header buffer. */
  method DecodeHeader(header: seq<Byte>) returns (fileName: GoString)
    ensures fileName == DecodeName(header)
  {
    fileName := [];
    var i := 0;
    while i < |header|
      invariant i <= |header|
      invariant forall k | 0 <= k < i :: header[k] != Nul
      invariant fileName == RuneString(header[..i])
    {
      if header[i] == Nul {
        break;
      }
      RuneStringSnoc(header[..i], header[i]);
      assert header[..i + 1] == header[..i] + [header[i]];
      fileName := fileName + RuneBytes(header[i]);
      i := i + 1;
    }
    NulIndexIs(header, i);
  }

  /** The bytes of `s` that `string(char)` widens to two bytes. */
  function HighCount(s: seq<Byte>): nat
  {
    if s == [] then 0 else (if s[0] >= 0x80 then 1 else 0) + HighCount(s[1..])
  }

  // ---------------------------------------------------------------------------
  // Lemmas about decoding
  // ---------------------------------------------------------------------------

  /** The first zero byte is determined by the two facts NulIndex promises. */
  lemma NulIndexIs(h: seq<Byte>, n: nat)
    requires n <= |h|
    requires forall k | 0 <= k < n :: h[k] != Nul
    requires n < |h| ==> h[n] == Nul
    ensures NulIndex(h) == n
  {
  }

  lemma {:induction false} RuneStringSnoc(s: seq<Byte>, b: Byte)
    ensures RuneString(s + [b]) == RuneString(s) + RuneBytes(b)
  {
    if s == [] {
      assert s + [b] == [b];
    } else {
      assert (s + [b])[1..] == s[1..] + [b];
      RuneStringSnoc(s[1..], b);
    }
  }

  /** The decoded string grows by one byte for every byte of 0x80 or more. */
  lemma {:induction false} RuneStringLength(s: seq<Byte>)
    ensures |RuneString(s)| == |s| + HighCount(s)
  {
    if s != [] {
      RuneStringLength(s[1..]);
    }
  }

  /** On 7-bit ASCII bytes `string(char)` is the identity. */
  lemma {:induction false} RuneStringAscii(s: seq<Byte>)
    requires IsAscii(s)
    ensures RuneString(s) == s
  {
    if s != [] {
      RuneStringAscii(s[1..]);
    }
  }

  /** Decoding consumes at most the bytes of the header, and every consumed
      byte yields at most two bytes of the name. */
  lemma DecodeNameLength(h: seq<Byte>)
    ensures NulIndex(h) <= |h|
    ensures |DecodeName(h)| <= 2 * |h|
  {
    HighCountBound(h[..NulIndex(h)]);
  }

  lemma {:induction false} HighCountBound(s: seq<Byte>)
    ensures HighCount(s) <= |s|
  {
    if s != [] {
      HighCountBound(s[1..]);
    }
  }

  /** A sequence with a byte of 0x80 or more has something to widen. */
  lemma {:induction false} HighCountPositive(s: seq<Byte>)
    requires !IsAscii(s)
    ensures HighCount(s) > 0
  {
    if s[0] < 0x80 {
      assert !IsAscii(s[1..]) by {
        var i :| 0 <= i < |s| && s[i] >= 0x80;
        assert s[1..][i - 1] == s[i];
      }
      HighCountPositive(s[1..]);
    }
  }

  /** Decoding a header produced for `name` yields the widened bytes of `name`
      up to its first zero byte: a zero byte inside the name truncates it. */
  lemma DecodeHeaderOf(name: GoString)
    requires |name| < MaxNameSize
    ensures DecodeName(Header(name)) == RuneString(name[..NulIndex(name)])
  {
    HeaderPrefix(name);
  }

  /** The header of a name agrees with the name up to the name's first zero
      byte, and has its own first zero byte at the same place. */
  lemma HeaderPrefix(name: GoString)
    requires |name| < MaxNameSize
    ensures NulIndex(Header(name)) == NulIndex(name)
    ensures Header(name)[..NulIndex(name)] == name[..NulIndex(name)]
  {
    var h := Header(name);
    var n := NulIndex(name);
    assert forall k | 0 <= k < |name| :: h[k] == name[k] by {
      assert h[..|name|] == name;
    }
    NulIndexIs(h, n);
    assert h[..n] == name[..n];
  }

  /** The round trip of the header: a name of at most 99 bytes, without zero
      bytes and made of 7-bit ASCII bytes, is decoded to itself. */
  lemma AsciiRoundTrip(name: GoString)
    requires |name| < MaxNameSize
    requires Nul !in name && IsAscii(name)
    ensures DecodeName(Header(name)) == name
  {
    DecodeHeaderOf(name);
    NulIndexIs(name, |name|);
    assert name[..|name|] == name;
    RuneStringAscii(name);
  }

  /** What the widening means: reading the received name as UTF-8 gives back the
      header bytes before the terminator, each as the code point of that value. */
  function Utf8Runes(u: GoString): Option<seq<int>>
    decreases |u|
  {
    if u == [] then Some([])
    else if u[0] < 0x80 then
      match Utf8Runes(u[1..])
      case Some(rest) => Some([u[0]] + rest)
      case None => None
    else if 0xC0 <= u[0] < 0xE0 && |u| >= 2 && 0x80 <= u[1] < 0xC0 then
      match Utf8Runes(u[2..])
      case Some(rest) => Some([(u[0] - 0xC0) * 0x40 + (u[1] - 0x80)] + rest)
      case None => None
    else None
  }

  lemma {:induction false} Utf8RunesOfRuneString(s: seq<Byte>)
    ensures Utf8Runes(RuneString(s)) == Some(s)
  {
    if s != [] {
      Utf8RunesOfRuneString(s[1..]);
      var u := RuneString(s);
      if s[0] < 0x80 {
        assert u[1..] == RuneString(s[1..]);
      } else {
        assert u[2..] == RuneString(s[1..]);
      }
      assert s == [s[0]] + s[1..];
    }
  }

  // ---------------------------------------------------------------------------
  // The non-ASCII round trip, as written and as intended
  // ---------------------------------------------------------------------------

  /** "café" in UTF-8: 'c' 'a' 'f' 0xC3 0xA9. */
  const Cafe: GoString := [0x63, 0x61, 0x66, 0xC3, 0xA9]

  /** As written, a UTF-8 name does not survive the transfer: each of its bytes
      of 0x80 or more is widened again, and "café" arrives as "cafÃ©". */
  lemma NonAsciiNameIsReencoded()
    ensures DecodeName(Header(Cafe)) == [0x63, 0x61, 0x66, 0xC3, 0x83, 0xC2, 0xA9]
    ensures DecodeName(Header(Cafe)) != Cafe
  {
  }

  /** As written, no name with a byte of 0x80 or more survives the transfer:
      every such byte makes the received name one byte longer. */
  lemma NonAsciiNeverRoundTrips(name: GoString)
    requires |name| < MaxNameSize && Nul !in name && !IsAscii(name)
    ensures DecodeName(Header(name)) != name
  {
    DecodeHeaderOf(name);
    NulIndexIs(name, |name|);
    assert name[..|name|] == name;
    RuneStringLength(name);
    HighCountPositive(name);
  }

  /** The evidently intended decoding: the bytes before the first zero byte,
      kept as they are (`string(header[:i])`). */
  function DecodeNameBytes(h: seq<Byte>): (name: GoString)
    ensures Nul !in name
    ensures |name| <= |h| && name == h[..|name|]
    ensures |name| < |h| ==> h[|name|] == Nul
  {
    h[..NulIndex(h)]
  }

  /** With the intended decoding, every name of at most 99 bytes without a zero
      byte round-trips exactly, whatever its bytes. */
  lemma BytesRoundTrip(name: GoString)
    requires |name| < MaxNameSize && Nul !in name
    ensures DecodeNameBytes(Header(name)) == name
  {
  }

  /** Hence two different zero-free names never share a header. */
  lemma HeaderInjective(a: GoString, b: GoString)
    requires |a| < MaxNameSize && Nul !in a
    requires |b| < MaxNameSize && Nul !in b
    ensures Header(a) == Header(b) ==> a == b
  {
  }
}
