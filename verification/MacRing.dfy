/** The byte ring between `ao_plugin_play` and the CoreAudio render callback, as a state machine
    whose steps are what happens while the mutex is held. */
module MacRing {
  import opened Basics
  import opened Bytes

  /** The ring, with its history: what is left of the current play call, the bytes the callback has
      taken out of the ring, and all bytes submitted so far. */
  datatype Session = Session(buffer: seq<byte>, first: nat, valid: nat, stopping: bool,
                             rest: seq<byte>, delivered: seq<byte>, submitted: seq<byte>)
  {
    ghost predicate Ok(): (b: bool)
      ensures b ==> first < |buffer| && valid <= |buffer|
    {
      && 0 < |buffer| && first < |buffer| && valid <= |buffer|
      && submitted == delivered + Contents(buffer, first, valid) + rest
    }
  }

  /** The valid bytes, in the order they were written. */
  function Contents(buffer: seq<byte>, first: nat, valid: nat): (c: seq<byte>)
    requires first < |buffer| && valid <= |buffer|
    ensures |c| == valid
    ensures forall k :: 0 <= k < valid ==> c[k] == buffer[Wrap(first + k, |buffer|)]
  {
    seq(valid, k requires 0 <= k < valid => buffer[Wrap(first + k, |buffer|)])
  }

  /** The offset of the first empty byte. */
  function FirstEmpty(first: nat, valid: nat, size: nat): nat {
    Wrap(first + valid, size)
  }

  /** How many bytes one chunk can take: as many as there are up to the end of the empty space or of
      the buffer. */
  function ChunkSize(first: nat, valid: nat, size: nat, n: nat): nat
    requires first < size && valid <= size
  {
    var empty, at := size - valid, FirstEmpty(first, valid, size);
    if at + empty > size then Min(n, size - at) else Min(n, empty)
  }

  /** What the callback takes out for a request of `n` bytes. */
  function Taken(s: Session, n: nat): nat {
    if s.valid < n && !s.stopping then 0 else Min(n, s.valid)
  }

  /** What the callback gives to CoreAudio. */
  function Rendered(s: Session, n: nat): (out: seq<byte>)
    requires s.first < |s.buffer| && s.valid <= |s.buffer|
    ensures |out| == n
  {
    Contents(s.buffer, s.first, s.valid)[..Taken(s, n)] + Fill(n - Taken(s, n), 0)
  }

  datatype Event = Submit(samples: seq<byte>) | CopyChunk | Callback(n: nat) | Stop

  function CopyStep(s: Session): Session
    requires s.first < |s.buffer| && s.valid <= |s.buffer|
  {
    var n := ChunkSize(s.first, s.valid, |s.buffer|, |s.rest|);
    s.(buffer := Patch(s.buffer, FirstEmpty(s.first, s.valid, |s.buffer|), s.rest[..n]),
       valid := s.valid + n, rest := s.rest[n..])
  }

  function CallbackStep(s: Session, n: nat): Session
    requires s.first < |s.buffer| && s.valid <= |s.buffer|
  {
    var k := Taken(s, n);
    s.(first := Wrap(s.first + k, |s.buffer|), valid := s.valid - k,
       delivered := s.delivered + Contents(s.buffer, s.first, s.valid)[..k])
  }

  /** What an event does; one that cannot happen in this state does nothing. The producer copies only
      while there is room, and waits otherwise. */
  function Step(s: Session, e: Event): Session
    requires s.first < |s.buffer| && s.valid <= |s.buffer|
  {
    match e
    case Submit(samples) =>
      if s.rest == [] then s.(rest := samples, submitted := s.submitted + samples) else s
    case CopyChunk =>
      if s.rest != [] && s.valid < |s.buffer| then CopyStep(s) else s
    case Callback(n) => CallbackStep(s, n)
    case Stop => s.(stopping := true)
  }

  /** A chunk lies in empty space, and extends the contents at their end. */
  lemma ChunkExtends(buffer: seq<byte>, first: nat, valid: nat, chunk: seq<byte>)
    requires first < |buffer| && valid <= |buffer|
    requires |chunk| <= ChunkSize(first, valid, |buffer|, |chunk|)
    ensures FirstEmpty(first, valid, |buffer|) + |chunk| <= |buffer| && valid + |chunk| <= |buffer|
    ensures Contents(Patch(buffer, FirstEmpty(first, valid, |buffer|), chunk), first, valid + |chunk|) ==
            Contents(buffer, first, valid) + chunk
  {
    var size, at := |buffer|, FirstEmpty(first, valid, |buffer|);
    var after := Patch(buffer, at, chunk);
    var now := Contents(after, first, valid + |chunk|);
    forall k | 0 <= k < valid + |chunk| ensures now[k] == (Contents(buffer, first, valid) + chunk)[k] {
      var i := Wrap(first + k, size);
      assert k < valid ==> i < at || i >= at + |chunk|;
      assert k >= valid ==> i == at + (k - valid);
    }
  }

  /** Taking bytes out shortens the contents at their front. */
  lemma TakingShortens(buffer: seq<byte>, first: nat, valid: nat, k: nat)
    requires first < |buffer| && valid <= |buffer| && k <= valid
    ensures Wrap(first + k, |buffer|) < |buffer|
    ensures Contents(buffer, Wrap(first + k, |buffer|), valid - k) == Contents(buffer, first, valid)[k..]
  {
  }

  lemma CopyKeeps(s: Session)
    requires s.Ok() && s.valid < |s.buffer|
    ensures CopyStep(s).Ok() && |CopyStep(s).buffer| == |s.buffer|
  {
    var n := ChunkSize(s.first, s.valid, |s.buffer|, |s.rest|);
    ChunkExtends(s.buffer, s.first, s.valid, s.rest[..n]);
    Regroup(s.delivered, Contents(s.buffer, s.first, s.valid), s.rest, n);
    hide Contents, Patch;
  }

  lemma CallbackKeeps(s: Session, n: nat)
    requires s.Ok()
    ensures CallbackStep(s, n).Ok()
  {
    var k := Taken(s, n);
    TakingShortens(s.buffer, s.first, s.valid, k);
    Regroup(s.delivered, [], Contents(s.buffer, s.first, s.valid), k);
    hide Contents;
  }

  lemma StepKeeps(s: Session, e: Event)
    requires s.Ok()
    ensures Step(s, e).Ok() && |Step(s, e).buffer| == |s.buffer|
  {
    match e {
      case Submit(samples) =>
        if s.rest == [] {
          assert s.submitted + samples == s.delivered + Contents(s.buffer, s.first, s.valid) + samples;
        }
      case CopyChunk =>
        if s.rest != [] && s.valid < |s.buffer| {
          CopyKeeps(s);
        }
      case Callback(n) =>
        CallbackKeeps(s, n);
      case Stop =>
    }
  }

  lemma Regroup(a: seq<byte>, b: seq<byte>, c: seq<byte>, n: nat)
    requires n <= |c|
    ensures a + b + c == a + (b + c[..n]) + c[n..]
    ensures a + b + [] + c == a + b + c
    ensures b == [] ==> a + c == (a + c[..n]) + c[n..]
  {
    assert c == c[..n] + c[n..];
  }

  /** The state after any interleaving. */
  function Run(s: Session, events: seq<Event>): (t: Session)
    requires s.Ok()
    ensures t.Ok() && |t.buffer| == |s.buffer|
    decreases |events|
  {
    if events == [] then s
    else
      StepKeeps(s, events[0]);
      Run(Step(s, events[0]), events[1..])
  }

  function Start(size: nat): Session {
    Session(Fill(size, 0), 0, 0, false, [], [], [])
  }

  /** First in, first out, under every interleaving of play calls, chunk copies, callbacks and the
      beginning of the close: what the callback took out, then what is in the ring, then what is
      left of the current play call, is what was submitted; the offset stays inside the buffer
      and the count does not exceed its size. */
  lemma MacFifo(size: nat, events: seq<Event>)
    requires size > 0
    ensures Start(size).Ok()
    ensures var t := Run(Start(size), events);
            && |t.buffer| == size && t.first < size && t.valid <= size
            && t.submitted == t.delivered + Contents(t.buffer, t.first, t.valid) + t.rest
  {
    assert Contents(Start(size).buffer, 0, 0) == [];
  }

  /** What one callback renders: silence that consumes nothing, or the oldest bytes, padded with zeros
      only while stopping. */
  lemma CallbackRenders(s: Session, n: nat)
    requires s.Ok()
    ensures var t, out := Step(s, Callback(n)), Rendered(s, n);
            if s.valid < n && !s.stopping then t == s && out == Fill(n, 0)
            else
              var k := s.valid - t.valid;
              && t.delivered == s.delivered + out[..k]
              && out[k..] == Fill(n - k, 0)
              && (k < n ==> s.stopping && t.valid == 0)
  {
    if s.valid < n && !s.stopping {
      assert Contents(s.buffer, s.first, s.valid)[..0] == [];
      assert s.delivered + [] == s.delivered;
    }
  }

  /** Whenever there is room a chunk of at least one byte is copied; the producer waits exactly when
      the ring is full. */
  lemma ProducerProgress(s: Session)
    requires s.Ok() && s.rest != []
    ensures if s.valid == |s.buffer| then Step(s, CopyChunk) == s
            else |Step(s, CopyChunk).rest| < |s.rest| && Step(s, CopyChunk).valid > s.valid
  {
  }

  /** While the producer waits, a callback makes room if and only if it asks for at least one byte and
      does not ask for more than the whole ring (or the device is stopping); then, asking for
      no more than the ring holds, it takes exactly what it asks for. */
  lemma FullRingProgress(s: Session, n: nat)
    requires s.Ok() && s.valid == |s.buffer|
    ensures Step(s, Callback(n)).valid < s.valid <==> 1 <= n && (n <= |s.buffer| || s.stopping)
    ensures n <= |s.buffer| ==> Step(s, Callback(n)).valid == s.valid - n
  {
  }

  /** While stopping, every nonempty request takes something out until nothing is left, and by then
      everything that was in the ring has been delivered. */
  lemma {:induction false} StoppingDrains(s: Session, requests: seq<Event>)
    requires s.Ok() && s.stopping
    requires forall i :: 0 <= i < |requests| ==> requests[i].Callback? && requests[i].n > 0
    ensures var t := Run(s, requests);
            && (s.valid <= |requests| ==> t.valid == 0)
            && (t.valid == 0 ==> t.delivered == s.delivered + Contents(s.buffer, s.first, s.valid))
            && (t.valid == 0 && s.rest == [] ==> t.delivered == s.submitted)
            && t.valid <= s.valid
    decreases |requests|
  {
    hide Contents;
    if requests == [] {
      assert s.delivered + [] == s.delivered;
    } else {
      var u := Step(s, requests[0]);
      StepKeeps(s, requests[0]);
      StoppingDrains(u, requests[1..]);
      var contents := Contents(s.buffer, s.first, s.valid);
      var k := Taken(s, requests[0].n);
      TakingShortens(s.buffer, s.first, s.valid, k);
      Regroup(s.delivered, [], contents, k);
    }
  }
}
