/** The proxy at work on a stream of well-framed messages. */
module MessageRelays {
  import opened Octets
  import opened Buffers
  import opened Connections
  import opened StreamHandlers
  import opened StreamGrammar
  import opened StreamTheorems
  import opened Proxies
  import H = HeaderGrammar

  /** Serves a source that sends the given messages. The destination receives a prefix of their
      canonical forms, and all of them once the source has ended and the buffer is used up; the
      stream is never refused, except that a start line cut by the end of a buffer is not resumed. */
  method RelayMessages(src: Connection, dest: Connection, rules: H.Rules, slots: nat,
                       events: seq<Event>, ghost items: seq<Item>)
    returns (h: StreamHandler, pause: Pause, ghost fed: Bytes)
    requires src != dest && src.buffer.Valid() && !src.buffer.isStatic && src.buffer.data == []
    requires dest.sent == [] && src.incoming == WireAll(items)
    requires forall i :: 0 <= i < |items| ==> WellFramed(rules, items[i])
    modifies src, src.buffer, dest
    ensures dest.sent <= WireAll(CanonicalAll(items))
    ensures pause == SourceFinished && src.incoming == [] && src.buffer.processPos == |src.buffer.data| ==>
      dest.sent == WireAll(CanonicalAll(items))
    ensures old(src.Sound()) && pause == SourceFinished ==> src.incoming == []
    ensures dest.Honest(pause == DestinationGone)
    ensures events != [] && pause == Denied ==> CutOff(src, h, old(src.incoming), fed)
  {
    hide After, Output, WellFramed, CutOff, OnTrack, Caught, Halted, Stuck, Awaits, WireAll, CanonicalAll;
    RelayAll(rules, items);
    h, pause, fed := Relay(src, dest, rules, slots, events);
  }
}
