/** TCP segments: the header fields and the payload. */
module Segments {
  import opened Basics

  type U8 = x: int | 0 <= x < 256

  datatype TcpHeader = TcpHeader(
    sport: U16, dport: U16, seqno: U32, ackno: U32, doff: U8,
    urg: bool, ack: bool, psh: bool, rst: bool, syn: bool, fin: bool,
    win: U16, cksum: U16, uptr: U16)

  const DEFAULT_HEADER :=
    TcpHeader(0, 0, 0, 0, 5, false, false, false, false, false, false, 0, 0, 0)

  datatype Segment = Segment(header: TcpHeader, payload: Bytes) {

    /** Sequence numbers the segment occupies: its bytes, and one each for SYN and FIN. */
    function Len(): nat
    {
      |payload| + (if header.syn then 1 else 0) + (if header.fin then 1 else 0)
    }
  }

  /** Sequence numbers a run of segments occupies. */
  function SeqLen(segments: seq<Segment>): nat
  {
    if segments == [] then 0 else SeqLen(segments[..|segments| - 1]) + segments[|segments| - 1].Len()
  }

  lemma SeqLenAppend(a: seq<Segment>, seg: Segment)
    ensures SeqLen(a + [seg]) == SeqLen(a) + seg.Len()
  {
    assert (a + [seg])[..|a|] == a;
  }

  lemma {:induction false} SeqLenConcat(a: seq<Segment>, b: seq<Segment>)
    ensures SeqLen(a + b) == SeqLen(a) + SeqLen(b)
    decreases |b|
  {
    if b == [] {
      assert a + b == a;
    } else {
      var front := b[..|b| - 1];
      SeqLenConcat(a, front);
      assert (a + b)[..|a + b| - 1] == a + front;
    }
  }

  /** Where segment `k` of a contiguous run starts, counting from the first. */
  function Start(segments: seq<Segment>, k: nat): nat
    requires k <= |segments|
  {
    SeqLen(segments[..k])
  }

  lemma StartNext(segments: seq<Segment>, k: nat)
    requires k < |segments|
    ensures Start(segments, k + 1) == Start(segments, k) + segments[k].Len()
  {
    assert segments[..k + 1][..k] == segments[..k];
  }

  lemma {:induction false} StartMonotone(segments: seq<Segment>, i: nat, j: nat)
    requires i <= j <= |segments|
    ensures Start(segments, i) <= Start(segments, j)
    decreases j - i
  {
    if i < j {
      StartMonotone(segments, i, j - 1);
      StartNext(segments, j - 1);
    }
  }

  lemma StartAppend(segments: seq<Segment>, more: seq<Segment>, k: nat)
    requires k <= |segments|
    ensures Start(segments + more, k) == Start(segments, k)
  {
    assert (segments + more)[..k] == segments[..k];
  }
}
