/** The fixed header and the frame it delimits: section 2.2 of MQTT 3.1.1, section 2.1 of MQTT 5.0. */
module Framing {
  import opened Wire
  import opened VarInt

  /** First byte, length of the fixed header itself, and length of what follows it. */
  datatype FixedHeader = FixedHeader(byte1: byte, fixedHeaderLen: nat, remainingLen: nat) {
    function FrameLength(): nat {
      fixedHeaderLen + remainingLen
    }
  }

  datatype HeaderResult = Header(header: FixedHeader) | TooShort(missing: nat) | BadLength

  /** `parse_fixed_header_by_slice` */
  function ParseFixedHeader(stream: Bytes): (r: HeaderResult)
    ensures r.Header? ==> 2 <= r.header.fixedHeaderLen <= |stream|
  {
    if |stream| < 2 then TooShort(2 - |stream|)
    else match Decode(stream[1..])
      case Value(count, value) => Header(FixedHeader(stream[0], count + 1, value))
      case Insufficient(missing) => TooShort(missing)
      case Malformed => BadLength
  }

  /**
   What the head of the receive buffer holds: a whole frame, part of one (with or without its header), or a length
   that can never be read, on which the buffer is thrown away.
   */
  datatype Head = Whole(header: FixedHeader, frame: Bytes, rest: Bytes) | Partial | NoHeader(missing: nat) | Garbage

  function SplitHead(stream: Bytes): (h: Head)
    ensures h.Whole? ==> && h.frame + h.rest == stream && |h.frame| >= 2
                         && h.header.fixedHeaderLen <= |h.frame| && h.header.FrameLength() == |h.frame|
  {
    match ParseFixedHeader(stream)
    case Header(header) =>
      var n := header.FrameLength();
      if n > |stream| then Partial
      else
        assert stream[..n] + stream[n..] == stream;
        Whole(header, stream[..n], stream[n..])
    case TooShort(missing) => NoHeader(missing)
    case BadLength => Garbage
  }

  /** A first byte, a declared length and some bytes: everything the splitter can meet that a writer produced. */
  lemma SplitDeclared(byte1: byte, n: nat, s: Bytes)
    ensures var stream := [byte1] + Encode(n) + s;
            SplitHead(stream)
            == if n > MAX_VAR_INT then Garbage
               else if n > |s| then Partial
               else Whole(FixedHeader(byte1, 1 + |Encode(n)|, n), [byte1] + Encode(n) + s[..n], s[n..])
  {
    hide Encode, Decode;
    var stream := [byte1] + Encode(n) + s;
    assert stream[1..] == Encode(n) + s;
    DecodeEncode(n, s);
    if n <= MAX_VAR_INT && n <= |s| {
      var k := 1 + |Encode(n)| + n;
      assert stream == ([byte1] + Encode(n) + s[..n]) + s[n..];
      assert stream[..k] == [byte1] + Encode(n) + s[..n] && stream[k..] == s[n..];
    }
  }

  /** A frame whose declared length is the length of its body. */
  function FrameOf(byte1: byte, body: Bytes): Bytes {
    [byte1] + Encode(|body|) + body
  }

  /** Such a frame is cut off the front of any stream, whatever follows. */
  lemma SplitFrameOf(byte1: byte, body: Bytes, rest: Bytes)
    requires |body| <= MAX_VAR_INT
    ensures SplitHead(FrameOf(byte1, body) + rest)
            == Whole(FixedHeader(byte1, 1 + |Encode(|body|)|, |body|), FrameOf(byte1, body), rest)
  {
    SplitDeclared(byte1, |body|, body + rest);
    assert FrameOf(byte1, body) + rest == [byte1] + Encode(|body|) + (body + rest);
    assert (body + rest)[..|body|] == body && (body + rest)[|body|..] == rest;
  }

  /** One packet as a writer should produce it: the splitter returns all of it and nothing else. */
  ghost predicate SelfDelimiting(w: Bytes) {
    SplitHead(w).Whole? && SplitHead(w).rest == []
  }

  /** A whole frame stays what it is when more bytes arrive; so does an unreadable length. */
  lemma SplitStable(stream: Bytes, more: Bytes)
    ensures SplitHead(stream).Whole? ==>
              SplitHead(stream + more)
              == Whole(SplitHead(stream).header, SplitHead(stream).frame, SplitHead(stream).rest + more)
    ensures SplitHead(stream).Garbage? ==> SplitHead(stream + more).Garbage?
  {
    if |stream| >= 2 {
      assert (stream + more)[1..] == stream[1..] + more;
      if !Decode(stream[1..]).Insufficient? {
        DecodeStable(stream[1..], more, 0);
      }
      if SplitHead(stream).Whole? {
        var n := SplitHead(stream).header.FrameLength();
        assert (stream + more)[..n] == stream[..n] && (stream + more)[n..] == stream[n..] + more;
      }
    }
  }
}
