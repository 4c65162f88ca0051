/** The macOS driver: the ring buffer, the render callback, and play. */
module MacDevice {
  import opened Basics
  import opened Bytes
  import opened MacRing

  /** Offsets are 32-bit unsigned, and the sum of two of them must not wrap round. */
  const MAX_SIZE := 0x8000_0000

  class Mac {
    const buffer: array<byte>
    var firstValid: nat
    var validCount: nat
    var started: bool
    var isStopping: bool
    /** Whether the audio unit can be started. */
    const startable: bool

    /** What has happened so far. */
    ghost var rest: seq<byte>
    ghost var delivered: seq<byte>
    ghost var submitted: seq<byte>

    ghost function View(): Session
      reads this, buffer
    {
      Session(buffer[..], firstValid, validCount, isStopping, rest, delivered, submitted)
    }

    ghost predicate Valid()
      reads this, buffer
    {
      buffer.Length < MAX_SIZE && View().Ok()
    }

    constructor (size: nat, startable: bool)
      requires 0 < size < 0x8000_0000
      ensures Valid() && fresh(buffer) && View() == Start(size) && this.startable == startable
    {
      this.startable := startable;
      buffer := new byte[size](_ => 0);
      firstValid, validCount, started, isStopping := 0, 0, false, false;
      rest, delivered, submitted := [], [], [];
      new;
      assert buffer[..] == Fill(size, 0);
      MacFifo(size, []);
    }

    /** Copy the oldest `n` bytes out of the ring, in two pieces if they wrap round. */
    method CopyOut(out: array<byte>, n: nat)
      requires firstValid < buffer.Length && n <= validCount <= buffer.Length && n <= out.Length
      requires out != buffer
      modifies out
      ensures out[..] == Contents(buffer[..], firstValid, validCount)[..n] + old(out[n..])
    {
      hide Contents, Patch, Wrap;
      ContentsPieces(buffer[..], firstValid, validCount, n);
      ghost var bytes := buffer[..];
      var firstFrag := n;
      if firstValid + n > buffer.Length {
        firstFrag := buffer.Length - firstValid;
      }
      if firstFrag < n {
        var head, tail := buffer[firstValid..firstValid + firstFrag], buffer[..n - firstFrag];
        assert head == bytes[firstValid..] && tail == bytes[..firstValid + n - |bytes|];
        CopyTwo(out, head, tail);
      } else {
        var piece := buffer[firstValid..firstValid + n];
        assert piece == bytes[firstValid..firstValid + n];
        CopyOne(out, piece);
      }
    }

    static method CopyOne(out: array<byte>, piece: seq<byte>)
      requires |piece| <= out.Length
      modifies out
      ensures out[..] == piece + old(out[|piece|..])
    {
      hide Patch;
      TwoPieces(out[..], piece, []);
      assert out[..][|piece|..] == out[|piece|..];
      CopyInto(out, 0, piece);
    }

    static method CopyTwo(out: array<byte>, head: seq<byte>, tail: seq<byte>)
      requires |head| + |tail| <= out.Length
      modifies out
      ensures out[..] == head + tail + old(out[|head| + |tail|..])
    {
      hide Patch;
      TwoPieces(out[..], head, tail);
      assert out[..][|head| + |tail|..] == out[|head| + |tail|..];
      CopyInto(out, 0, head);
      CopyInto(out, |head|, tail);
    }

    /** `audioCallback`, for what it is given of the list of buffers: it renders to a single buffer, and
        refuses anything else. */
    method AudioCallback(ioData: Option<seq<array<byte>>>) returns (silence: bool)
      requires Valid()
      requires ioData.Some? && |ioData.value| == 1 ==> ioData.value[0] != buffer
      modifies this`firstValid, this`validCount, this`delivered
      modifies if ioData.Some? && |ioData.value| == 1 then {ioData.value[0]} else {}
      ensures Valid()
      ensures if ioData.Some? && |ioData.value| == 1 then
                && View() == CallbackStep(old(View()), ioData.value[0].Length)
                && ioData.value[0][..] == Rendered(old(View()), ioData.value[0].Length)
                && (silence <==> old(validCount) < ioData.value[0].Length && !isStopping)
              else
                View() == old(View()) && !silence
    {
      if ioData.None? {
        return false;
      }
      if |ioData.value| != 1 {
        return false;
      }
      silence := Render(ioData.value[0]);
    }

    /** Fill `out`, either with silence because there is too little to play, or with
        the oldest bytes of the ring, and zeros after the last of them. */
    method Render(out: array<byte>) returns (silence: bool)
      requires Valid() && out != buffer
      modifies this`firstValid, this`validCount, this`delivered, out
      ensures Valid() && View() == CallbackStep(old(View()), out.Length)
      ensures out[..] == Rendered(old(View()), out.Length)
      ensures silence <==> old(validCount) < out.Length && !isStopping
    {
      hide Contents, Patch, Session.Ok;
      ghost var s := View();
      CallbackKeeps(s, out.Length);
      if validCount < out.Length && !isStopping {
        MemSet(out, 0, 0, out.Length);
        NothingTaken(s, out.Length);
        return true;
      }
      var bytesToCopy := Min(out.Length, validCount);
      CopyOut(out, bytesToCopy);
      if bytesToCopy < out.Length {
        MemSet(out, bytesToCopy, 0, out.Length - bytesToCopy);
      }
      delivered := delivered + out[..bytesToCopy];
      validCount := validCount - bytesToCopy;
      WrapIsMod(firstValid + bytesToCopy, buffer.Length);
      firstValid := (firstValid + bytesToCopy) % buffer.Length;
      assert View() == CallbackStep(s, out.Length);
      return false;
    }

    /** The part of `ao_plugin_play` that copies one chunk while the mutex is held: as much of
        `samples` from `pos` on as fits before the end of the empty space or of the buffer. */
    method CopyChunk(samples: seq<byte>, pos: nat) returns (n: nat)
      requires Valid() && validCount < buffer.Length
      requires pos < |samples| && rest == samples[pos..]
      modifies this`validCount, this`rest, buffer
      ensures Valid() && View() == CopyStep(old(View())) && n > 0
      ensures pos + n <= |samples| && rest == samples[pos + n..]
      ensures || pos + n == |samples| || validCount == buffer.Length
              || old(firstValid) + old(validCount) + n in {buffer.Length, 2 * buffer.Length}
    {
      hide Contents, Patch, Session.Ok;
      ghost var s := View();
      CopyKeeps(s);
      var emptyByteCount := buffer.Length - validCount;
      ChunkIsLargest(firstValid, validCount, buffer.Length, |rest|);
      WrapIsMod(firstValid + validCount, buffer.Length);
      var firstEmpty := (firstValid + validCount) % buffer.Length;
      if firstEmpty + emptyByteCount > buffer.Length {
        n := Min(|samples| - pos, buffer.Length - firstEmpty);
      } else {
        n := Min(|samples| - pos, emptyByteCount);
      }
      assert n == ChunkSize(firstValid, validCount, buffer.Length, |rest|);
      assert firstEmpty == FirstEmpty(firstValid, validCount, buffer.Length);
      assert samples[pos..pos + n] == rest[..n] && samples[pos + n..] == rest[n..];
      hide ChunkSize, FirstEmpty;
      CopyInto(buffer, firstEmpty, samples[pos..pos + n]);
      rest := rest[n..];
      validCount := validCount + n;
      assert View() == CopyStep(s);
    }

    /** The beginning of `ao_plugin_close`. */
    method BeginStopping()
      requires Valid()
      modifies this`isStopping
      ensures Valid() && View() == old(View()).(stopping := true)
    {
      isStopping := true;
    }

    /** Callbacks, one for each requested size. */
    method Callbacks(requests: seq<nat>)
      requires Valid()
      modifies this`firstValid, this`validCount, this`delivered
      ensures Valid() && View() == Run(old(View()), Requests(requests))
      ensures rest == old(rest) && submitted == old(submitted) && buffer[..] == old(buffer[..])
      ensures MakesRoom(requests, buffer.Length) ==> validCount < buffer.Length
    {
      hide Session.Ok, CallbackStep, Contents;
      ghost var events := Requests(requests);
      for k := 0 to |requests|
        invariant Valid() && Run(View(), events[k..]) == Run(old(View()), events)
        invariant MakesRoom(requests[..k], buffer.Length) ==> validCount < buffer.Length
      {
        CallbackRoom(View(), requests[k]);
        MoreRequests(requests, k, buffer.Length);
        var out := new byte[requests[k]];
        RunStep(View(), events, k);
        var silence := AudioCallback(Some([out]));
      }
    }

    /** One look at the ring, after some callbacks: a chunk is copied unless the ring is full. */
    method Look(samples: seq<byte>, pos: nat, requests: seq<nat>) returns (n: nat, full: bool)
      requires Valid() && pos < |samples| && rest == samples[pos..]
      modifies this`firstValid, this`validCount, this`delivered, this`rest, buffer
      ensures Valid() && View() == Run(Run(old(View()), Requests(requests)), [Event.CopyChunk])
      ensures full <==> Run(old(View()), Requests(requests)).valid == buffer.Length
      ensures pos + n <= |samples| && rest == samples[pos + n..]
      ensures if full then n == 0 else n > 0
      ensures MakesRoom(requests, buffer.Length) ==> !full
      ensures submitted == old(submitted)
    {
      hide Run, Contents, CopyStep, CallbackStep, MakesRoom, Session.Ok;
      Callbacks(requests);
      var emptyByteCount := buffer.Length - validCount;
      full := emptyByteCount == 0;
      if full {
        WaitingPass(View());
        n := 0;
      } else {
        CopyingPass(View());
        n := CopyChunk(samples, pos);
      }
    }

    /** `ao_plugin_play`. Before each look at the ring the callbacks of one element of `calls` run;
        a look at a full ring copies nothing and waits. `ok` is false exactly when the unit had to be
        started, because the ring was full, and could not be; `done` says that the call has returned
        after that many looks. It has when, as often as there are bytes, there was a callback for one
        byte or more, up to as many as the ring holds, whatever was called in between. */
    method Play(samples: seq<byte>, calls: seq<seq<nat>>) returns (ok: bool, done: bool, looks: nat)
      requires Valid() && rest == []
      modifies this, buffer
      ensures Valid() && looks <= |calls| && (looks < |calls| ==> done)
      ensures View() == Run(old(View()), [Submit(samples)] + Passes(calls[..looks]))
      ensures ok <==>
              || old(started) || startable
              || forall t :: 0 <= t < looks ==> LookState(old(View()), samples, calls, t).valid < buffer.Length
      ensures done <==> !ok || rest == []
      ensures RoomyCalls(calls, buffer.Length) >= |samples| ==> done
      ensures |calls| >= |samples| && (forall t :: 0 <= t < |calls| ==> MakesRoom(calls[t], buffer.Length)) ==> done
      ensures submitted == old(submitted) + samples && isStopping == old(isStopping)
    {
      hide Run, Contents, CopyStep, CallbackStep, MakesRoom, RoomyCalls, LookState, Passes, Session.Ok;
      ghost var start := View();
      StepKeeps(start, Submit(samples));
      RunOne(start, Submit(samples));
      rest, submitted := samples, submitted + samples;
      NoCalls(calls, buffer.Length);
      NoPasses(start, samples, calls);
      var pos := 0;
      looks, ok := 0, true;
      while pos < |samples| && looks < |calls|
        invariant ok && looks <= |calls| && 0 <= pos <= |samples| && Valid() && rest == samples[pos..]
        invariant (old(started) ==> started) && (started ==> old(started) || startable)
        invariant !started ==> forall t :: 0 <= t < looks ==> LookState(start, samples, calls, t).valid < buffer.Length
        invariant submitted == old(submitted) + samples && isStopping == old(isStopping)
        invariant View() == Run(start, [Submit(samples)] + Passes(calls[..looks]))
        invariant pos >= RoomyCalls(calls[..looks], buffer.Length)
        decreases |calls| - looks
      {
        OneMoreCall(calls, looks, buffer.Length);
        OneMorePass(start, samples, calls, looks);
        LookBound(start, samples, calls, looks);
        var n, full := Look(samples, pos, calls[looks]);
        looks := looks + 1;
        if full && !started {
          if !startable {
            assert LookState(start, samples, calls, looks - 1).valid == buffer.Length;
            return false, true, looks;
          }
          started := true;
        }
        pos := pos + n;
      }
      assert calls[..|calls|] == calls;
      if forall t :: 0 <= t < |calls| ==> MakesRoom(calls[t], buffer.Length) {
        AllRoomy(calls, buffer.Length);
      }
      done := pos == |samples|;
    }

    /** The wait of `ao_plugin_close` for pending data to be played, over the callbacks of `requests`:
        it ends once as many nonempty callbacks have run as there are bytes, or before. */
    method Drain(requests: seq<nat>) returns (drained: bool)
      requires Valid() && isStopping
      requires forall i :: 0 <= i < |requests| ==> requests[i] > 0
      modifies this`firstValid, this`validCount, this`delivered
      ensures Valid()
      ensures drained <==> validCount == 0
      ensures old(validCount) <= |requests| ==> drained
      ensures drained && rest == [] ==> delivered == submitted
    {
      ghost var start := View();
      var t := 0;
      while validCount > 0 && t < |requests|
        invariant t <= |requests| && Valid() && isStopping
        invariant validCount + t <= old(validCount) || validCount == 0
        invariant rest == old(rest)
        decreases |requests| - t
      {
        var out := new byte[requests[t]];
        var silence := AudioCallback(Some([out]));
        t := t + 1;
      }
      drained := validCount == 0;
      assert validCount == 0 ==> Contents(buffer[..], firstValid, validCount) == [];
    }
  }

  /** What happens in the looks of a play: callbacks, and then a chunk is copied, or not if the ring is
      full. */
  ghost function Passes(calls: seq<seq<nat>>): seq<Event> {
    if calls == [] then []
    else Passes(calls[..|calls| - 1]) + Requests(calls[|calls| - 1]) + [Event.CopyChunk]
  }

  /** The state that look `t` of a play finds. */
  ghost function LookState(s: Session, samples: seq<byte>, calls: seq<seq<nat>>, t: nat): Session
    requires s.Ok() && t < |calls|
  {
    Run(s, [Submit(samples)] + Passes(calls[..t]) + Requests(calls[t]))
  }

  lemma NoPasses(s: Session, samples: seq<byte>, calls: seq<seq<nat>>)
    requires s.Ok()
    ensures Run(s, [Submit(samples)] + Passes(calls[..0])) == Run(s, [Submit(samples)])
  {
    assert [Submit(samples)] + Passes(calls[..0]) == [Submit(samples)];
  }

  lemma OneMorePass(s: Session, samples: seq<byte>, calls: seq<seq<nat>>, t: nat)
    requires s.Ok() && t < |calls|
    ensures LookState(s, samples, calls, t) ==
            Run(Run(s, [Submit(samples)] + Passes(calls[..t])), Requests(calls[t]))
    ensures Run(s, [Submit(samples)] + Passes(calls[..t + 1])) ==
            Run(LookState(s, samples, calls, t), [Event.CopyChunk])
  {
    hide Run, Passes, Session.Ok, Requests;
    var before := [Submit(samples)] + Passes(calls[..t]);
    PassesNext(calls, t);
    RunAppend(s, before, Requests(calls[t]));
    Assoc([Submit(samples)], Passes(calls[..t]), Requests(calls[t]), [Event.CopyChunk]);
    RunAppend(s, before + Requests(calls[t]), [Event.CopyChunk]);
  }

  lemma LookBound(s: Session, samples: seq<byte>, calls: seq<seq<nat>>, t: nat)
    requires s.Ok() && t < |calls|
    ensures LookState(s, samples, calls, t).valid <= |s.buffer|
  {
  }

  lemma PassesNext(calls: seq<seq<nat>>, t: nat)
    requires t < |calls|
    ensures Passes(calls[..t + 1]) == Passes(calls[..t]) + Requests(calls[t]) + [Event.CopyChunk]
  {
    assert calls[..t + 1][..t] == calls[..t];
  }

  lemma Assoc(a: seq<Event>, b: seq<Event>, c: seq<Event>, d: seq<Event>)
    ensures a + (b + c + d) == a + b + c + d
  {
  }

  lemma WaitingPass(s: Session)
    requires s.Ok() && s.valid == |s.buffer|
    ensures Run(s, [Event.CopyChunk]) == s
  {
    RunOne(s, Event.CopyChunk);
  }

  lemma CopyingPass(s: Session)
    requires s.Ok() && s.valid < |s.buffer| && s.rest != []
    ensures Run(s, [Event.CopyChunk]) == CopyStep(s)
  {
    RunOne(s, Event.CopyChunk);
  }

  lemma {:induction false} AllRoomy(calls: seq<seq<nat>>, size: nat)
    requires forall t :: 0 <= t < |calls| ==> MakesRoom(calls[t], size)
    ensures RoomyCalls(calls, size) == |calls|
  {
    hide MakesRoom;
    if calls != [] {
      AllRoomy(calls[..|calls| - 1], size);
    }
  }

  /** A chunk is all that is left, or fills the ring, or ends at the end of the buffer. */
  lemma ChunkIsLargest(first: nat, valid: nat, size: nat, n: nat)
    requires first < size && valid <= size
    ensures var k := ChunkSize(first, valid, size, n);
            && k <= n && valid + k <= size
            && (k == n || valid + k == size || first + valid + k == size || first + valid + k == 2 * size)
  {
  }

  /** One of the requests is not empty and not greater than the ring. */
  predicate MakesRoom(requests: seq<nat>, size: nat) {
    exists i :: 0 <= i < |requests| && 1 <= requests[i] <= size
  }

  function RoomyCalls(calls: seq<seq<nat>>, size: nat): (n: nat)
    ensures n <= |calls|
  {
    if calls == [] then 0
    else
      RoomyCalls(calls[..|calls| - 1], size) + if MakesRoom(calls[|calls| - 1], size) then 1 else 0
  }

  lemma NoCalls(calls: seq<seq<nat>>, size: nat)
    ensures RoomyCalls(calls[..0], size) == 0
  {
  }

  lemma OneMoreCall(calls: seq<seq<nat>>, t: nat, size: nat)
    requires t < |calls|
    ensures RoomyCalls(calls[..t + 1], size) ==
            RoomyCalls(calls[..t], size) + if MakesRoom(calls[t], size) then 1 else 0
  {
    assert calls[..t + 1][..t] == calls[..t];
  }

  lemma MoreRequests(requests: seq<nat>, k: nat, size: nat)
    requires k < |requests|
    ensures MakesRoom(requests[..k + 1], size) <==> MakesRoom(requests[..k], size) || 1 <= requests[k] <= size
    ensures requests[..|requests|] == requests
  {
    if MakesRoom(requests[..k + 1], size) {
      var i :| 0 <= i < k + 1 && 1 <= requests[..k + 1][i] <= size;
      assert i < k ==> requests[..k][i] == requests[i];
    }
    if MakesRoom(requests[..k], size) {
      var i :| 0 <= i < k && 1 <= requests[..k][i] <= size;
      assert requests[..k + 1][i] == requests[i];
    }
    assert requests[..k + 1][k] == requests[k];
  }

  /** A callback never fills the ring, and makes room in a full one if it asks for a byte or more, up to
      as many as there are. */
  lemma CallbackRoom(s: Session, n: nat)
    requires s.Ok()
    ensures CallbackStep(s, n).valid <= s.valid
    ensures 1 <= n <= |s.buffer| ==> CallbackStep(s, n).valid < |s.buffer|
  {
  }

  lemma TwoPieces(out: seq<byte>, a: seq<byte>, b: seq<byte>)
    requires |a| + |b| <= |out|
    ensures Patch(Patch(out, 0, a), |a|, b) == a + b + out[|a| + |b|..]
    ensures b == [] ==> Patch(out, 0, a) == a + out[|a|..]
  {
  }

  lemma WrapIsMod(i: nat, size: nat)
    requires 0 < size && i < 2 * size
    ensures i % size == Wrap(i, size)
  {
  }

  lemma ContentsPieces(buffer: seq<byte>, first: nat, valid: nat, n: nat)
    requires first < |buffer| && n <= valid <= |buffer|
    ensures Contents(buffer, first, valid)[..n] ==
            if first + n > |buffer| then buffer[first..] + buffer[..first + n - |buffer|]
            else buffer[first..first + n]
  {
  }

  lemma NothingTaken(s: Session, n: nat)
    requires s.Ok() && s.valid < n && !s.stopping
    ensures Rendered(s, n) == Fill(n, 0) && CallbackStep(s, n) == s
  {
    assert Contents(s.buffer, s.first, s.valid)[..0] == [];
  }

  ghost function Requests(sizes: seq<nat>): (es: seq<Event>)
    ensures |es| == |sizes| && forall i :: 0 <= i < |sizes| ==> es[i] == Callback(sizes[i])
  {
    seq(|sizes|, i requires 0 <= i < |sizes| => Callback(sizes[i]))
  }

  lemma RunOne(s: Session, e: Event)
    requires s.Ok()
    ensures Run(s, [e]) == Step(s, e)
  {
    StepKeeps(s, e);
    assert [e][1..] == [];
    assert Run(Step(s, e), []) == Step(s, e);
  }

  lemma RunStep(s: Session, events: seq<Event>, k: nat)
    requires s.Ok() && k < |events|
    ensures Step(s, events[k]).Ok()
    ensures Run(s, events[k..]) == Run(Step(s, events[k]), events[k + 1..])
  {
    StepKeeps(s, events[k]);
    assert events[k..][1..] == events[k + 1..];
  }

  lemma {:induction false} RunAppend(s: Session, a: seq<Event>, b: seq<Event>)
    requires s.Ok()
    ensures Run(s, a + b) == Run(Run(s, a), b)
    decreases |a|
  {
    if a == [] {
      assert a + b == b;
    } else {
      StepKeeps(s, a[0]);
      assert (a + b)[1..] == a[1..] + b;
      RunAppend(Step(s, a[0]), a[1..], b);
    }
  }
}
