/** How records are framed in a segment file: an 8-byte total size and an 8-byte index, both
    little-endian, then the marshalled entry. */
module Framing {
  import opened History

  type Byte = x: int | 0 <= x < 256

  /** The entry codec is a library; only its round trip matters here. */
  datatype Codec = Codec(marshal: Record -> seq<Byte>, unmarshal: seq<Byte> -> Option<Record>)

  const HEADER: nat := 16
  const TWO_64: nat := 0x1_0000_0000_0000_0000

  /** The codec restores every entry of the list, and sizes and indices fit 64 bits. */
  ghost predicate Encodable(c: Codec, es: seq<Record>) {
    forall i | 0 <= i < |es| ::
      c.unmarshal(c.marshal(es[i])) == Some(es[i]) && HEADER + |c.marshal(es[i])| < TWO_64 && es[i].index < TWO_64
  }

  // ---------------------------------------------------------------- little-endian numbers

  function Limit(k: nat): nat {
    if k == 0 then 1 else 256 * Limit(k - 1)
  }

  function ToBytes(n: nat, k: nat): (bs: seq<Byte>)
    ensures |bs| == k
  {
    if k == 0 then [] else [n % 256] + ToBytes(n / 256, k - 1)
  }

  function FromBytes(bs: seq<Byte>): nat {
    if bs == [] then 0 else bs[0] + 256 * FromBytes(bs[1..])
  }

  lemma {:induction false} BytesRoundTrip(n: nat, k: nat)
    requires n < Limit(k)
    ensures FromBytes(ToBytes(n, k)) == n
  {
    if k > 0 {
      BytesRoundTrip(n / 256, k - 1);
      assert ToBytes(n, k)[1..] == ToBytes(n / 256, k - 1);
    }
  }

  /** The least significant byte comes first. */
  lemma LowByteFirst(low: Byte, high: nat, k: nat)
    ensures ToBytes(low + 256 * high, k + 1) == [low] + ToBytes(high, k)
  {
  }

  lemma EightBytes(n: nat)
    requires n < TWO_64
    ensures FromBytes(ToBytes(n, 8)) == n
  {
    assert Limit(4) == 0x1_0000_0000;
    assert Limit(8) == 256 * (256 * (256 * (256 * Limit(4))));
    BytesRoundTrip(n, 8);
  }

  // ---------------------------------------------------------------- writing

  function Frame(c: Codec, e: Record): seq<Byte> {
    var data := c.marshal(e);
    ToBytes(HEADER + |data|, 8) + ToBytes(e.index, 8) + data
  }

  function Stream(c: Codec, es: seq<Record>): seq<Byte> {
    if es == [] then [] else Frame(c, es[0]) + Stream(c, es[1..])
  }

  // ---------------------------------------------------------------- reading

  datatype Header = AtEnd | Short | Header(index: nat, total: nat)

  function ReadHeader(s: seq<Byte>): Header {
    if |s| == 0 then AtEnd
    else if |s| < HEADER then Short
    else Header(FromBytes(s[8..16]), FromBytes(s[..8]))
  }

  datatype Entry = End | Bad | Got(e: Record, rest: seq<Byte>)

  /** One framed entry: fails on a short header, a short payload, an undecodable payload or an index that does not
      match the header. A file that ends right after a header counts as ended: reading a payload of which not one
      byte is there reports the end of the file. */
  function ReadEntry(c: Codec, s: seq<Byte>): (r: Entry)
    ensures r.Got? ==> |r.rest| < |s|
  {
    match ReadHeader(s)
    case AtEnd => End
    case Short => Bad
    case Header(index, total) =>
      if total < HEADER then Bad
      else if |s| == HEADER < total then End
      else if |s| < total then Bad
      else
        var e := c.unmarshal(s[HEADER..total]);
        if e.None? || e.value.index != index then Bad else Got(e.value, s[total..])
  }

  /** What any bytes read as, corrupt ones included: an entry exactly if a whole frame is there whose payload decodes to
      an entry with the index of the header; the end exactly if nothing is left or a bare header that announces a
      payload; an error otherwise. */
  lemma AnyBytesRead(c: Codec, s: seq<Byte>)
    ensures ReadEntry(c, s).Got? <==>
            && |s| >= 16 && 16 <= FromBytes(s[..8]) <= |s|
            && var e := c.unmarshal(s[16..FromBytes(s[..8])]); e.Some? && e.value.index == FromBytes(s[8..16])
    ensures ReadEntry(c, s).Got? ==>
            var total := FromBytes(s[..8]); ReadEntry(c, s) == Got(c.unmarshal(s[16..total]).value, s[total..])
    ensures ReadEntry(c, s).End? <==> s == [] || (|s| == 16 && FromBytes(s[..8]) > 16)
  {
  }

  datatype ReadResult = ReadResult(entries: seq<Record>, clean: bool)

  /** Reads to the end of the file; `clean` is false if it stopped at something unreadable. */
  function ReadAll(c: Codec, s: seq<Byte>): ReadResult
    decreases |s|
  {
    match ReadEntry(c, s)
    case End => ReadResult([], true)
    case Bad => ReadResult([], false)
    case Got(e, rest) =>
      var r := ReadAll(c, rest);
      ReadResult([e] + r.entries, r.clean)
  }

  /** The header-only scan: it seeks over payloads, past the end if need be. `None` is a read error. */
  function ScanLast(s: seq<Byte>, last: nat): Option<nat>
    decreases |s|
  {
    match ReadHeader(s)
    case AtEnd => Some(last)
    case Short => None
    case Header(index, total) =>
      if total < HEADER then None else ScanLast(if total <= |s| then s[total..] else [], index)
  }

  // ---------------------------------------------------------------- round trip

  lemma HeaderOfFrame(c: Codec, e: Record, tail: seq<Byte>)
    requires Encodable(c, [e])
    ensures ReadHeader(Frame(c, e) + tail) == Header(e.index, HEADER + |c.marshal(e)|)
    ensures |Frame(c, e)| == HEADER + |c.marshal(e)| && Frame(c, e)[HEADER..] == c.marshal(e)
  {
    var s, data := Frame(c, e) + tail, c.marshal(e);
    assert [e][0] == e;
    assert s[..8] == ToBytes(HEADER + |data|, 8);
    assert s[8..16] == ToBytes(e.index, 8);
    EightBytes(HEADER + |data|);
    EightBytes(e.index);
  }

  /** A frame is its own length, then the index, then the payload. */
  lemma FrameLayout(c: Codec, e: Record)
    requires Encodable(c, [e])
    ensures var f := Frame(c, e);
            && |f| == HEADER + |c.marshal(e)| && f[HEADER..] == c.marshal(e)
            && FromBytes(f[..8]) == |f| && FromBytes(f[8..16]) == e.index
  {
    var f, data := Frame(c, e), c.marshal(e);
    assert [e][0] == e;
    assert f[..8] == ToBytes(HEADER + |data|, 8) && f[8..16] == ToBytes(e.index, 8);
    EightBytes(HEADER + |data|);
    EightBytes(e.index);
  }

  lemma EntryOfFrame(c: Codec, e: Record, tail: seq<Byte>)
    requires Encodable(c, [e])
    ensures ReadEntry(c, Frame(c, e) + tail) == Got(e, tail)
  {
    HeaderOfFrame(c, e, tail);
    var f := Frame(c, e);
    assert [e][0] == e;
    hide Frame, ReadHeader;
    assert (f + tail)[HEADER..|f|] == f[HEADER..] && (f + tail)[|f|..] == tail;
  }

  lemma TailEncodable(c: Codec, es: seq<Record>)
    requires Encodable(c, es) && es != []
    ensures Encodable(c, [es[0]]) && Encodable(c, es[1..])
  {
  }

  /** Reading back a file of frames returns exactly the entries that were written. */
  lemma {:induction false} FramesRoundTrip(c: Codec, es: seq<Record>)
    requires Encodable(c, es)
    ensures ReadAll(c, Stream(c, es)) == ReadResult(es, true)
  {
    if es != [] {
      TailEncodable(c, es);
      FramesRoundTrip(c, es[1..]);
      EntryOfFrame(c, es[0], Stream(c, es[1..]));
      hide ReadEntry, Frame, Encodable;
      assert es == [es[0]] + es[1..];
    }
  }

  /** The header-only scan agrees with the full read on the last index. */
  lemma {:induction false} ScanFindsLast(c: Codec, es: seq<Record>, last: nat)
    requires Encodable(c, es)
    ensures ScanLast(Stream(c, es), last) == Some(if es == [] then last else es[|es| - 1].index)
  {
    if es != [] {
      TailEncodable(c, es);
      ScanFindsLast(c, es[1..], es[0].index);
      HeaderOfFrame(c, es[0], Stream(c, es[1..]));
      var f, tail := Frame(c, es[0]), Stream(c, es[1..]);
      hide ReadHeader, Frame, Encodable;
      assert (f + tail)[|f|..] == tail;
    }
  }

  // ---------------------------------------------------------------- a file cut short

  lemma CutFrame(c: Codec, e: Record, n: nat)
    requires Encodable(c, [e]) && 0 < n < |Frame(c, e)|
    ensures ReadEntry(c, Frame(c, e)[..n]) == if n == HEADER then End else Bad
    ensures ReadHeader(Frame(c, e)[..n]) == if n < HEADER then Short else Header(e.index, |Frame(c, e)|)
  {
    HeaderOfFrame(c, e, []);
    var f := Frame(c, e);
    assert f + [] == f;
    if n >= HEADER {
      assert f[..n][..8] == f[..8] && f[..n][8..16] == f[8..16];
    }
  }

  /** How many frames end at or before byte `n`. */
  function WholeFrames(c: Codec, es: seq<Record>, n: nat): (k: nat)
    ensures k <= |es|
  {
    if es == [] || |Frame(c, es[0])| > n then 0 else 1 + WholeFrames(c, es[1..], n - |Frame(c, es[0])|)
  }

  lemma StreamOfFirst(c: Codec, es: seq<Record>, k: nat)
    requires 0 < k <= |es|
    ensures Stream(c, es[..k]) == Frame(c, es[0]) + Stream(c, es[1..][..k - 1])
    ensures es[..k] == [es[0]] + es[1..][..k - 1]
  {
    hide Frame;
    assert es[..k][1..] == es[1..][..k - 1];
  }

  /** The frames counted end at or before the cut, and the next one does not. */
  lemma {:induction false} WholeFramesAreWhole(c: Codec, es: seq<Record>, n: nat)
    ensures var k := WholeFrames(c, es, n);
            |Stream(c, es[..k])| <= n && (k < |es| ==> n < |Stream(c, es[..k + 1])|)
  {
    hide Frame;
    var k := WholeFrames(c, es, n);
    if k > 0 {
      WholeFramesAreWhole(c, es[1..], n - |Frame(c, es[0])|);
      StreamOfFirst(c, es, k);
    }
    if k < |es| {
      StreamOfFirst(c, es, k + 1);
    }
  }

  /** A file cut at byte `n` reads back exactly the entries whose frames end at or before the cut. The read ends
      cleanly exactly when the cut falls at the end of the last of them or right after the next header. */
  lemma {:induction false} CutFileReadsWholeFrames(c: Codec, es: seq<Record>, n: nat)
    requires Encodable(c, es) && n <= |Stream(c, es)|
    ensures var k := WholeFrames(c, es, n);
            ReadAll(c, Stream(c, es)[..n]) == ReadResult(es[..k], n - |Stream(c, es[..k])| in {0, HEADER})
  {
    var s, k := Stream(c, es), WholeFrames(c, es, n);
    if k == 0 {
      if n > 0 {
        TailEncodable(c, es);
        CutFrame(c, es[0], n);
        assert s[..n] == Frame(c, es[0])[..n];
      }
    } else {
      TailEncodable(c, es);
      var f := Frame(c, es[0]);
      var m := n - |f|;
      var cut := Stream(c, es[1..])[..m];
      CutFileReadsWholeFrames(c, es[1..], m);
      assert s[..n] == f + cut;
      ReadStep(c, es[0], cut);
      hide Frame, ReadAll;
      StreamOfFirst(c, es, k);
      assert es[..k] == [es[0]] + es[1..][..k - 1];
    }
  }

  lemma ReadStep(c: Codec, e: Record, rest: seq<Byte>)
    requires Encodable(c, [e])
    ensures var r := ReadAll(c, rest); ReadAll(c, Frame(c, e) + rest) == ReadResult([e] + r.entries, r.clean)
  {
    EntryOfFrame(c, e, rest);
    hide Frame, ReadEntry;
  }

  /** What the header-only scan makes of a file cut at byte `n`: with part of a header left over it fails, with a
      whole header left over it reports the index of an entry that the read does not return. */
  lemma {:induction false} CutFileScan(c: Codec, es: seq<Record>, n: nat, last: nat)
    requires Encodable(c, es) && n <= |Stream(c, es)|
    ensures var k := WholeFrames(c, es, n);
            var over := n - |Stream(c, es[..k])|;
            ScanLast(Stream(c, es)[..n], last) ==
            if over == 0 then Some(if k == 0 then last else es[k - 1].index)
            else if over < HEADER || k == |es| then None
            else Some(es[k].index)
  {
    var s, k := Stream(c, es), WholeFrames(c, es, n);
    if k == 0 {
      if n > 0 {
        CutFirstScan(c, es, n, last);
      }
    } else {
      TailEncodable(c, es);
      var f := Frame(c, es[0]);
      var m := n - |f|;
      var cut := Stream(c, es[1..])[..m];
      CutFileScan(c, es[1..], m, es[0].index);
      assert s[..n] == f + cut;
      ScanStep(c, es[0], cut, last);
      hide Frame, ScanLast;
      StreamOfFirst(c, es, k);
    }
  }

  lemma ScanStep(c: Codec, e: Record, rest: seq<Byte>, last: nat)
    requires Encodable(c, [e])
    ensures ScanLast(Frame(c, e) + rest, last) == ScanLast(rest, e.index)
  {
    HeaderOfFrame(c, e, rest);
    hide Frame;
    assert (Frame(c, e) + rest)[|Frame(c, e)|..] == rest;
  }

  /** A file cut inside its first frame. */
  lemma CutFirstScan(c: Codec, es: seq<Record>, n: nat, last: nat)
    requires Encodable(c, es) && 0 < n <= |Stream(c, es)| && WholeFrames(c, es, n) == 0
    ensures es != [] && ScanLast(Stream(c, es)[..n], last) == if n < HEADER then None else Some(es[0].index)
  {
    var s := Stream(c, es);
    TailEncodable(c, es);
    CutFrame(c, es[0], n);
    assert s[..n] == Frame(c, es[0])[..n];
    hide Frame;
    assert n >= HEADER ==> ScanLast(s[..n], last) == ScanLast([], es[0].index);
  }
}
