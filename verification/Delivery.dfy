/** From the writer's queues to the peer's reader: the writer, the printers and the parsers together. */
module Delivery {
  import opened Prelude
  import opened Framing
  import opened FrameCodec
  import P = FramePrinter
  import W = Writer

  /** The messages on the wire, in the order their writes began. */
  function Messages<V>(wire: seq<W.Sent<P.Sent<V>>>): seq<P.Sent<V>> {
    seq(|wire|, i requires 0 <= i < |wire| => wire[i].frame)
  }

  ghost predicate Printable<V>(mode: Mode, c: Codec<V>, m: P.Sent<V>) {
    P.Sendable(mode, c, m) && c.decode(m.body) == Some(m.value)
  }

  lemma {:induction false} OnTheWire<T>(wire: seq<W.Sent<T>>, i: nat)
    requires i < |wire|
    ensures wire[i].frame in W.LaneFrames(wire) || wire[i].frame in W.MainFrames(wire)
  {
    if i < |wire| - 1 { OnTheWire(Front(wire), i); }
  }

  /** Whatever two queues were filled with, once the writer has ended cleanly a peer that reads
      the bytes in any chunks receives every message, each queue's messages in the order they
      were queued, and nothing else. */
  lemma QueuedMessagesArrive<V>(mode: Mode, c: Codec<V>, run: seq<W.Step<P.Sent<V>>>,
      s: W.WriterState<P.Sent<V>>, chunks: seq<Bytes>)
    requires W.After(W.Start<P.Sent<V>>(), run) == Some(s) && s.at == W.Done
    requires forall m :: m in s.lanePushed || m in s.mainPushed ==> Printable(mode, c, m)
    requires Concat(chunks) == P.Stream(mode, Messages(s.wire))
    ensures FeedAll(mode, c, Opened(), chunks) == Conn(P.Delivered(Messages(s.wire)), [], true)
    ensures W.LaneFrames(s.wire) == s.lanePushed && W.MainFrames(s.wire) == s.mainPushed
  {
    W.WireIsAMerge(run);
    forall i | 0 <= i < |Messages(s.wire)| ensures Printable(mode, c, Messages(s.wire)[i]) {
      OnTheWire(s.wire, i);
    }
    hide W.After, W.LaneFrames, W.MainFrames, FeedAll, Concat, P.Stream, Messages;
    P.StreamRoundTrip(mode, c, Messages(s.wire), chunks);
  }
}
