/**
 * One part of the `multipart/x-mixed-replace; boundary=frame` video response:
 * a boundary line, a `Content-Type: image/jpeg` header, a blank line, the
 * encoded image and a closing CRLF.
 */
module Framing {
  import opened Wrappers

  newtype byte = b: int | 0 <= b < 256

  /** The bytes of a string whose characters are all below 256 (Python's `b'...'` literals). */
  function Ascii(s: string): seq<byte>
    requires forall i :: 0 <= i < |s| ==> s[i] as int < 256
  {
    seq(|s|, i requires 0 <= i < |s| => s[i] as int as byte)
  }

  /** The boundary token announced in the response's media type. */
  const Boundary: string := "frame"

  /** Everything a part carries before its image bytes. */
  const PartHeader: seq<byte> := Ascii("--" + Boundary + "\r\nContent-Type: image/jpeg\r\n\r\n")

  /** Everything a part carries after its image bytes. */
  const PartTrailer: seq<byte> := Ascii("\r\n")

  /** The chunk yielded for one encoded image. */
  function Framed(payload: seq<byte>): seq<byte>
  {
    PartHeader + payload + PartTrailer
  }

  /** What a client reads back out of one part: the image bytes, if the part is well formed. */
  function Unframe(chunk: seq<byte>): Option<seq<byte>>
  {
    if |chunk| >= |PartHeader| + |PartTrailer|
       && chunk[..|PartHeader|] == PartHeader
       && chunk[|chunk| - |PartTrailer|..] == PartTrailer
    then Some(chunk[|PartHeader|..|chunk| - |PartTrailer|])
    else None
  }

  /** A part is the header, then the image bytes, then the trailer. */
  lemma FramedLayout(payload: seq<byte>)
    ensures |Framed(payload)| == |PartHeader| + |payload| + |PartTrailer|
    ensures Framed(payload)[..|PartHeader|] == PartHeader
    ensures Framed(payload)[|PartHeader|..|PartHeader| + |payload|] == payload
    ensures Framed(payload)[|PartHeader| + |payload|..] == PartTrailer
  {
  }

  /** A client recovers exactly the image bytes that were framed. */
  lemma UnframeFramed(payload: seq<byte>)
    ensures Unframe(Framed(payload)) == Some(payload)
  {
    FramedLayout(payload);
  }

  /** Every well-formed part is the framing of what it carries. */
  lemma FramedUnframe(chunk: seq<byte>)
    requires Unframe(chunk).Some?
    ensures Framed(Unframe(chunk).value) == chunk
  {
    var p := Unframe(chunk).value;
    assert chunk == chunk[..|PartHeader|] + p + chunk[|chunk| - |PartTrailer|..];
  }

  /** Distinct images give distinct parts. */
  lemma FramedInjective(p: seq<byte>, q: seq<byte>)
    requires Framed(p) == Framed(q)
    ensures p == q
  {
    UnframeFramed(p);
    UnframeFramed(q);
  }
}
