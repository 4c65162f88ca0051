/** The ring of sample blocks shared with the Windows wave device, as a state machine: blocks are
    filled in ring order, handed to the device when full, marked done by the device in any order,
    and released in the order they were sent. */
module WmmRing {
  import opened Basics
  import opened Bytes

  /** A wave header: bytes filled so far, size, whether the block has been sent (0, 1, or 2 for an
      empty block that was only pretended to be sent), and the device's DONE flag. */
  datatype Header = Header(count: nat, bufferLength: nat, sent: nat, done: bool)

  datatype Ring = Ring(length: nat, headers: seq<Header>, data: seq<seq<byte>>,
                       widx: nat, ridx: nat, sentBlocks: int, fullBlocks: int)

  /** How many steps round the ring block `i` is from block `from`. */
  function Off(from: nat, i: nat, n: nat): int {
    if i >= from then i - from else i - from + n
  }

  /** The block `k` steps on from the oldest one. */
  function Nth(r: Ring, k: nat): nat
    requires k <= |r.headers|
  {
    Wrap(r.ridx + k, |r.headers|)
  }

  function AsInt(b: bool): nat {
    if b then 1 else 0
  }

  /** The ring invariant. `failed` says that one write was refused; play has stopped then. The sent
      blocks are the cyclic run of `sentBlocks` blocks from `ridx` on, the block to be filled comes
      right after them, one further after a failed write, and only that block holds bytes that
      have not been sent. */
  ghost predicate Inv(r: Ring, failed: bool): (b: bool)
    ensures b ==> r.widx < |r.headers| == |r.data| && r.ridx < |r.headers| && r.sentBlocks >= 0
  {
    var n := |r.headers|;
    && r.length > 0 && n > 0 && |r.data| == n
    && r.ridx < n
    && 0 <= r.sentBlocks && r.sentBlocks + AsInt(failed) <= n
    && r.fullBlocks == r.sentBlocks + AsInt(failed)
    && r.widx == Nth(r, r.fullBlocks) < n
    && forall i :: 0 <= i < n ==> HeaderOk(r, i)
  }

  ghost predicate HeaderOk(r: Ring, i: nat)
    requires i < |r.headers| == |r.data|
  {
    var h := r.headers[i];
    && |r.data[i]| == r.length == h.bufferLength
    && h.sent == AsInt(Off(r.ridx, i, |r.headers|) < r.sentBlocks)
    && (h.done ==> h.sent == 1)
    && h.count < r.length
    && (i != r.widx || h.sent == 1 ==> h.count == 0)
  }

  /** `_ao_alloc_wave_headers`: nothing sent, nothing filled. */
  function NewRing(blocks: nat, length: nat): Ring {
    Ring(length, seq(blocks, _ => Header(0, length, 0, false)),
         seq(blocks, _ => Fill(length, 0)), 0, 0, 0, 0)
  }

  lemma NewRingOk(blocks: nat, length: nat)
    requires blocks > 0 && length > 0
    ensures Inv(NewRing(blocks, length), false)
  {
  }

  // ----- Releasing blocks

  predicate Releasable(r: Ring)
    requires r.ridx < |r.headers|
  {
    r.headers[r.ridx].sent != 0 && r.headers[r.ridx].done
  }

  function ReleaseOne(r: Ring): Ring
    requires r.ridx < |r.headers|
  {
    r.(headers := r.headers[r.ridx := r.headers[r.ridx].(sent := 0, done := false)],
       fullBlocks := r.fullBlocks - 1, sentBlocks := r.sentBlocks - 1,
       ridx := Wrap(r.ridx + 1, |r.headers|))
  }

  lemma ReleaseOneOk(r: Ring, failed: bool)
    requires Inv(r, failed) && Releasable(r)
    ensures r.sentBlocks > 0 && Inv(ReleaseOne(r), failed)
  {
    assert HeaderOk(r, r.ridx);
    var t := ReleaseOne(r);
    forall i | 0 <= i < |t.headers| ensures HeaderOk(t, i) {
      assert HeaderOk(r, i);
    }
  }

  /** The loop of `_ao_get_free_block`: release blocks for as long as the oldest one is done. */
  ghost function Release(r: Ring, failed: bool): (t: Ring)
    requires Inv(r, failed)
    ensures Inv(t, failed)
    ensures !Releasable(t)
    ensures t.widx == r.widx && t.data == r.data && |t.headers| == |r.headers| && t.length == r.length
    decreases r.sentBlocks
  {
    if Releasable(r) then
      ReleaseOneOk(r, failed);
      Release(ReleaseOne(r), failed)
    else r
  }

  /** The number of blocks that one call releases: those at the front of the run that are done. */
  ghost function FrontDone(r: Ring, failed: bool): (n: nat)
    requires Inv(r, failed)
    ensures n <= r.sentBlocks
    decreases r.sentBlocks
  {
    if Releasable(r) then
      ReleaseOneOk(r, failed);
      1 + FrontDone(ReleaseOne(r), failed)
    else 0
  }

  lemma ReleaseStep(r: Ring, failed: bool)
    requires Inv(r, failed) && Releasable(r)
    ensures r.sentBlocks > 0 && r.fullBlocks > 0 && Inv(ReleaseOne(r), failed)
    ensures Release(r, failed) == Release(ReleaseOne(r), failed)
    ensures FrontDone(r, failed) == 1 + FrontDone(ReleaseOne(r), failed)
    ensures |ReleaseOne(r).headers| == |r.headers| && ReleaseOne(r).sentBlocks == r.sentBlocks - 1
    ensures Nth(r, 0) == r.ridx < |r.headers|
    ensures forall j :: 0 < j <= |r.headers| ==> Nth(ReleaseOne(r), j - 1) == Nth(r, j)
    ensures forall j :: 0 < j < |r.headers| ==>
              ReleaseOne(r).headers[Nth(r, j)] == r.headers[Nth(r, j)]
  {
    ReleaseOneOk(r, failed);
  }

  lemma NotReleasable(r: Ring, failed: bool)
    requires Inv(r, failed) && !Releasable(r)
    ensures Release(r, failed) == r && FrontDone(r, failed) == 0
    ensures Nth(r, 0) == r.ridx < |r.headers|
    ensures r.sentBlocks > 0 ==> !r.headers[r.ridx].done
  {
    assert HeaderOk(r, r.ridx);
  }

  /** One call releases the blocks at the front of the run up to the first that is not done, in the
      order they were sent and no more of them than the ring has. */
  lemma {:induction false} ReleasesTheFront(r: Ring, failed: bool)
    requires Inv(r, failed)
    ensures var t, k := Release(r, failed), FrontDone(r, failed);
            && k <= r.sentBlocks <= |r.headers|
            && t.sentBlocks == r.sentBlocks - k && t.ridx == Nth(r, k) < |r.headers|
            && (forall j :: 0 <= j < k ==> r.headers[Nth(r, j)].done)
            && (k < r.sentBlocks ==> !r.headers[Nth(r, k)].done)
    decreases r.sentBlocks
  {
    var k := FrontDone(r, failed);
    hide HeaderOk, Nth, Release, FrontDone;
    if Releasable(r) {
      ReleaseStep(r, failed);
      var r1 := ReleaseOne(r);
      hide ReleaseOne;
      ReleasesTheFront(r1, failed);
      forall j | 0 <= j < k ensures r.headers[Nth(r, j)].done {
        if j > 0 {
          assert r1.headers[Nth(r1, j - 1)].done;
        }
      }
    } else {
      NotReleasable(r, failed);
    }
  }

  /** No other header is touched. */
  lemma {:induction false} ReleaseTouchesTheFront(r: Ring, failed: bool)
    requires Inv(r, failed)
    ensures var t, k, n := Release(r, failed), FrontDone(r, failed), |r.headers|;
            forall i :: 0 <= i < n ==>
              t.headers[i] == if Off(r.ridx, i, n) < k then r.headers[i].(sent := 0, done := false)
                              else r.headers[i]
    decreases r.sentBlocks
  {
    var t, k, n := Release(r, failed), FrontDone(r, failed), |r.headers|;
    hide HeaderOk, Nth, Release, FrontDone;
    if Releasable(r) {
      ReleaseStep(r, failed);
      var r1 := ReleaseOne(r);
      ReleaseTouchesTheFront(r1, failed);
      ReleasesTheFront(r1, failed);
      forall i | 0 <= i < n
        ensures t.headers[i] == if Off(r.ridx, i, n) < k then r.headers[i].(sent := 0, done := false)
                                else r.headers[i]
      {
        assert i != r.ridx ==> Off(r1.ridx, i, n) == Off(r.ridx, i, n) - 1;
        assert i == r.ridx ==> Off(r1.ridx, i, n) == n - 1 >= k - 1;
      }
    } else {
      NotReleasable(r, failed);
    }
  }

  /** Once the device has marked every sent block done, one call empties the ring. */
  lemma AllDoneDrains(r: Ring, failed: bool)
    requires Inv(r, failed)
    requires forall i :: 0 <= i < |r.headers| && r.headers[i].sent != 0 ==> r.headers[i].done
    ensures Release(r, failed).sentBlocks == 0
  {
    ReleasesTheFront(r, failed);
    var k := FrontDone(r, failed);
    assert HeaderOk(r, Nth(r, k));
  }

  // ----- Filling and sending

  /** The free bytes of the block being filled. */
  function Room(r: Ring): int
    requires r.widx < |r.headers|
  {
    r.headers[r.widx].bufferLength - r.headers[r.widx].count
  }

  function FillBlock(r: Ring, chunk: seq<byte>): Ring
    requires r.widx < |r.headers| == |r.data|
    requires r.headers[r.widx].count + |chunk| <= |r.data[r.widx]|
  {
    var h := r.headers[r.widx];
    r.(data := r.data[r.widx := Patch(r.data[r.widx], h.count, chunk)],
       headers := r.headers[r.widx := h.(count := h.count + |chunk|)])
  }

  /** The block is full: count it and go on to the next one. */
  function Advance(r: Ring): Ring
    requires 0 < |r.headers|
  {
    r.(fullBlocks := r.fullBlocks + 1,
       widx := if r.widx + 1 == |r.headers| then 0 else r.widx + 1)
  }

  datatype Sent = Refused | Pretended | Written(ok: bool)

  /** `_ao_send_block`: a block marked sent or done is refused, an empty one is only pretended to be
      sent, and any other is handed to the device, which takes it or not. */
  function SendKind(h: Header, ok: bool): Sent {
    if h.sent != 0 || h.done then Refused else if h.count <= 0 then Pretended else Written(ok)
  }

  function Send(r: Ring, idx: nat, ok: bool): Ring
    requires idx < |r.headers|
  {
    var h := r.headers[idx];
    match SendKind(h, ok)
    case Refused => r
    case Pretended =>
      r.(headers := r.headers[idx := h.(sent := 2, done := true)], sentBlocks := r.sentBlocks + 1)
    case Written(_) =>
      r.(headers := r.headers[idx := h.(bufferLength := h.count, count := 0, sent := AsInt(ok))],
         sentBlocks := r.sentBlocks + AsInt(ok))
  }

  /** The device marks a block it was sent as done. */
  function MarkDone(r: Ring, i: nat): Ring
    requires i < |r.headers|
  {
    r.(headers := r.headers[i := r.headers[i].(done := true)])
  }

  lemma MarkDoneOk(r: Ring, failed: bool, i: nat)
    requires Inv(r, failed) && i < |r.headers| && r.headers[i].sent == 1
    ensures Inv(MarkDone(r, i), failed)
  {
    var t := MarkDone(r, i);
    forall k | 0 <= k < |t.headers| ensures HeaderOk(t, k) {
      assert HeaderOk(r, k);
    }
  }

  /** The block to be filled is free exactly when not all blocks are sent, and then it is neither
      sent nor done and has room. */
  lemma FreeBlock(r: Ring)
    requires Inv(r, false)
    ensures r.headers[r.widx].sent == 0 <==> r.sentBlocks < |r.headers|
    ensures r.headers[r.widx].sent == 0 ==> !r.headers[r.widx].done && Room(r) > 0
    ensures r.headers[r.widx].sent != 0 ==> r.headers[r.widx].count == 0
    ensures r.headers[r.widx].bufferLength == r.length == |r.data[r.widx]|
  {
    assert HeaderOk(r, r.widx);
  }

  lemma FillBlockOk(r: Ring, chunk: seq<byte>)
    requires Inv(r, false) && r.sentBlocks < |r.headers| && |chunk| < Room(r)
    ensures |r.data[r.widx]| == r.length == r.headers[r.widx].bufferLength
    ensures Inv(FillBlock(r, chunk), false)
  {
    assert HeaderOk(r, r.widx);
    var t := FillBlock(r, chunk);
    forall k | 0 <= k < |t.headers| ensures HeaderOk(t, k) {
      assert HeaderOk(r, k);
    }
  }

  /** Filling a block up and sending it: the block is full, the checks for blocks that are sent, done
      or empty do not strike, and afterwards the block is sent or the write has failed. */
  lemma FillUpOk(r: Ring, chunk: seq<byte>, ok: bool)
    requires Inv(r, false) && r.sentBlocks < |r.headers| && |chunk| == Room(r)
    ensures |r.data[r.widx]| == r.length == r.headers[r.widx].bufferLength
    ensures var full := Advance(FillBlock(r, chunk));
            && full.headers[r.widx].count == full.headers[r.widx].bufferLength == r.length
            && SendKind(full.headers[r.widx], ok) == Written(ok)
            && Inv(Send(full, r.widx, ok), !ok)
  {
    assert HeaderOk(r, r.widx);
    var t := Send(Advance(FillBlock(r, chunk)), r.widx, ok);
    FilledPosition(r);
    forall k | 0 <= k < |t.headers| ensures HeaderOk(t, k) {
      assert HeaderOk(r, k);
    }
  }

  lemma FilledPosition(r: Ring)
    requires Inv(r, false) && r.sentBlocks < |r.headers|
    ensures Off(r.ridx, r.widx, |r.headers|) == r.sentBlocks
    ensures forall k :: 0 <= k < |r.headers| ==>
              (Off(r.ridx, k, |r.headers|) < r.sentBlocks + 1 <==>
               k == r.widx || Off(r.ridx, k, |r.headers|) < r.sentBlocks)
  {
  }

  // ----- Whole runs

  /** A ring with its history: the blocks the device has accepted, the one it refused, the bytes of
      the current play call that have not been copied yet, and all bytes submitted so far. */
  datatype Session = Session(ring: Ring, handed: seq<seq<byte>>, lost: Option<seq<byte>>,
                             rest: seq<byte>, submitted: seq<byte>)
  {
    /** The bytes of the partly filled block. */
    function Pending(): seq<byte>
      requires ring.widx < |ring.headers| == |ring.data|
      requires ring.headers[ring.widx].count <= |ring.data[ring.widx]|
    {
      ring.data[ring.widx][..ring.headers[ring.widx].count]
    }
  }

  function Start(blocks: nat, length: nat): Session {
    Session(NewRing(blocks, length), [], None, [], [])
  }

  /** The ring is in order; every accepted block is exactly full; the blocks the device has not
      given back yet are the last ones it accepted, unchanged; and what was submitted is what was
      handed over, then the partly filled block (or the block that was refused), then what is left
      of the current call. */
  ghost predicate SessionInv(s: Session): (b: bool)
    ensures b ==> Inv(s.ring, s.lost.Some?)
  {
    && Inv(s.ring, s.lost.Some?)
    && s.ring.sentBlocks <= |s.handed|
    && (forall i :: 0 <= i < |s.handed| ==> |s.handed[i]| == s.ring.length)
    && (s.lost.Some? ==> |s.lost.value| == s.ring.length)
    && (forall k :: 0 <= k < s.ring.sentBlocks ==> HoldsHanded(s, k))
    && Conserved(s)
  }

  /** The `k`-th oldest block that is still sent holds what was handed over. */
  ghost predicate HoldsHanded(s: Session, k: nat)
    requires s.ring.sentBlocks <= |s.handed| && k < s.ring.sentBlocks <= |s.ring.headers| == |s.ring.data|
  {
    && Nth(s.ring, k) < |s.ring.data|
    && s.ring.data[Nth(s.ring, k)] == s.handed[|s.handed| - s.ring.sentBlocks + k]
  }

  ghost predicate Conserved(s: Session)
    requires Inv(s.ring, s.lost.Some?)
  {
    assert HeaderOk(s.ring, s.ring.widx);
    s.submitted ==
      Concat(s.handed) + (if s.lost.Some? then s.lost.value else s.Pending()) + s.rest
  }

  datatype Event = Submit(buffer: seq<byte>) | Play(ok: bool) | Complete(block: nat) | Poll

  /** One pass of the loop of `ao_wmm_play`; `ok` is what the device says to a write. */
  ghost function PlayStep(s: Session, ok: bool): Session
    requires SessionInv(s) && s.lost.None? && s.rest != []
  {
    var r := Release(s.ring, false);
    FreeBlock(r);
    if r.headers[r.widx].sent != 0 then s.(ring := r)
    else
      var n := Min(Room(r), |s.rest|);
      var chunk := s.rest[..n];
      assert HeaderOk(r, r.widx);
      if n < Room(r) then
        s.(ring := FillBlock(r, chunk), rest := s.rest[n..])
      else
        var full := Advance(FillBlock(r, chunk));
        var t := s.(ring := Send(full, r.widx, ok), rest := s.rest[n..]);
        if ok then t.(handed := s.handed + [full.data[r.widx]])
        else t.(lost := Some(full.data[r.widx]))
  }

  lemma PlayStepWaits(s: Session, ok: bool, r: Ring)
    requires SessionInv(s) && s.lost.None? && s.rest != [] && r == Release(s.ring, false)
    requires r.headers[r.widx].sent != 0
    ensures PlayStep(s, ok) == s.(ring := r)
  {
  }

  lemma PlayStepFills(s: Session, ok: bool, r: Ring, n: nat)
    requires SessionInv(s) && s.lost.None? && s.rest != [] && r == Release(s.ring, false)
    requires r.headers[r.widx].sent == 0 && n == Min(Room(r), |s.rest|) < Room(r)
    ensures |r.data[r.widx]| == r.headers[r.widx].bufferLength
    ensures PlayStep(s, ok) == s.(ring := FillBlock(r, s.rest[..n]), rest := s.rest[n..])
  {
    FreeBlock(r);
  }

  lemma PlayStepSends(s: Session, ok: bool, r: Ring, n: nat)
    requires SessionInv(s) && s.lost.None? && s.rest != [] && r == Release(s.ring, false)
    requires r.headers[r.widx].sent == 0 && n == Min(Room(r), |s.rest|) == Room(r)
    ensures |r.data[r.widx]| == r.headers[r.widx].bufferLength
    ensures var full := FillBlock(r, s.rest[..n]);
            PlayStep(s, ok) ==
            Session(Send(Advance(full), r.widx, ok),
                    if ok then s.handed + [full.data[r.widx]] else s.handed,
                    if ok then None else Some(full.data[r.widx]), s.rest[n..], s.submitted)
  {
    FreeBlock(r);
  }

  /** What an event does; one that cannot happen in this state does nothing. */
  ghost function Step(s: Session, e: Event): Session
    requires SessionInv(s)
  {
    match e
    case Submit(buffer) =>
      if s.lost.None? && s.rest == [] then s.(rest := buffer, submitted := s.submitted + buffer) else s
    case Play(ok) =>
      if s.lost.None? && s.rest != [] then PlayStep(s, ok) else s
    case Complete(i) =>
      if i < |s.ring.headers| && s.ring.headers[i].sent == 1 then s.(ring := MarkDone(s.ring, i)) else s
    case Poll =>
      s.(ring := Release(s.ring, s.lost.Some?))
  }

  lemma ReleaseHolds(s: Session)
    requires SessionInv(s)
    ensures var t := s.(ring := Release(s.ring, s.lost.Some?));
            && t.ring.sentBlocks <= s.ring.sentBlocks && Inv(t.ring, s.lost.Some?)
            && forall k :: 0 <= k < t.ring.sentBlocks ==> HoldsHanded(t, k)
  {
    var failed := s.lost.Some?;
    var t := s.(ring := Release(s.ring, failed));
    var j := FrontDone(s.ring, failed);
    ReleasesTheFront(s.ring, failed);
    hide Release, FrontDone, Conserved, HeaderOk;
    forall k | 0 <= k < t.ring.sentBlocks ensures HoldsHanded(t, k) {
      assert HoldsHanded(s, j + k);
      assert Nth(t.ring, k) == Nth(s.ring, j + k);
    }
  }

  /** Releasing blocks takes them off the front of what the device still holds. */
  lemma ReleaseKeeps(s: Session)
    requires SessionInv(s)
    ensures SessionInv(s.(ring := Release(s.ring, s.lost.Some?)))
  {
    var failed := s.lost.Some?;
    var t := s.(ring := Release(s.ring, failed));
    ReleaseHolds(s);
    ReleaseTouchesTheFront(s.ring, failed);
    hide Release, FrontDone, Concat, HoldsHanded;
    assert HeaderOk(s.ring, s.ring.widx) && HeaderOk(t.ring, t.ring.widx);
    assert t.ring.headers[t.ring.widx].count == s.ring.headers[s.ring.widx].count;
  }

  lemma SplitRest(a: seq<byte>, p: seq<byte>, rest: seq<byte>, n: nat)
    requires n <= |rest|
    ensures a + p + rest == a + (p + rest[..n]) + rest[n..]
    ensures a + p + rest == (a + (p + rest[..n])) + [] + rest[n..]
  {
    assert rest == rest[..n] + rest[n..];
  }

  /** A block that is filled only in part holds the bytes it held and the chunk. */
  lemma FillKeeps(s: Session, n: nat)
    requires SessionInv(s) && s.lost.None? && s.ring.sentBlocks < |s.ring.headers|
    requires n <= |s.rest| && n < Room(s.ring)
    ensures |s.ring.data[s.ring.widx]| == s.ring.headers[s.ring.widx].bufferLength
    ensures SessionInv(s.(ring := FillBlock(s.ring, s.rest[..n]), rest := s.rest[n..]))
  {
    var r, chunk := s.ring, s.rest[..n];
    FillBlockOk(r, chunk);
    FilledPosition(r);
    var t := s.(ring := FillBlock(r, chunk), rest := s.rest[n..]);
    forall k | 0 <= k < t.ring.sentBlocks ensures HoldsHanded(t, k) {
      assert HoldsHanded(s, k);
    }
    assert t.Pending() == s.Pending() + chunk;
    SplitRest(Concat(s.handed), s.Pending(), s.rest, n);
  }

  /** A block that is filled up holds the bytes that were pending and the chunk; it goes to the
      device, or is refused, and nothing is pending any more. */
  lemma FillUpKeeps(s: Session, n: nat, ok: bool)
    requires SessionInv(s) && s.lost.None? && s.ring.sentBlocks < |s.ring.headers|
    requires n <= |s.rest| && n == Room(s.ring)
    ensures |s.ring.data[s.ring.widx]| == s.ring.headers[s.ring.widx].bufferLength
    ensures var full := Advance(FillBlock(s.ring, s.rest[..n]));
            var block := full.data[s.ring.widx];
            var t := s.(ring := Send(full, s.ring.widx, ok), rest := s.rest[n..]);
            && block == s.Pending() + s.rest[..n] && |block| == s.ring.length
            && SessionInv(if ok then t.(handed := s.handed + [block]) else t.(lost := Some(block)))
  {
    hide Concat;
    var r, chunk := s.ring, s.rest[..n];
    assert HeaderOk(r, r.widx);
    var full := Advance(FillBlock(r, chunk));
    var block := full.data[r.widx];
    assert block == s.Pending() + chunk;
    FillUpOk(r, chunk, ok);
    SplitRest(Concat(s.handed), s.Pending(), s.rest, n);
    var t := s.(ring := Send(full, r.widx, ok), rest := s.rest[n..]);
    if ok {
      ConcatSnoc(s.handed, block);
      var u := t.(handed := s.handed + [block]);
      SentBlocksKept(s, u, block);
      NextIsEmpty(s, u, n);
    } else {
      var u := t.(lost := Some(block));
      FilledPosition(r);
      forall k | 0 <= k < u.ring.sentBlocks ensures HoldsHanded(u, k) {
        assert HoldsHanded(s, k);
      }
    }
  }

  lemma SentBlocksKept(s: Session, u: Session, block: seq<byte>)
    requires SessionInv(s) && s.lost.None? && s.ring.sentBlocks < |s.ring.headers|
    requires |u.ring.headers| == |u.ring.data| == |s.ring.headers|
    requires u.ring.ridx == s.ring.ridx && u.ring.sentBlocks == s.ring.sentBlocks + 1
    requires u.ring.data == s.ring.data[s.ring.widx := block] && u.handed == s.handed + [block]
    ensures forall k :: 0 <= k < u.ring.sentBlocks ==> HoldsHanded(u, k)
  {
    FilledPosition(s.ring);
    forall k | 0 <= k < u.ring.sentBlocks ensures HoldsHanded(u, k) {
      if k < s.ring.sentBlocks {
        assert HoldsHanded(s, k);
      }
    }
  }

  lemma NextIsEmpty(s: Session, u: Session, n: nat)
    requires SessionInv(s) && s.lost.None? && s.ring.sentBlocks < |s.ring.headers|
    requires n <= |s.rest| && n == Room(s.ring)
    requires |s.ring.data[s.ring.widx]| == s.ring.headers[s.ring.widx].bufferLength
    requires u.ring == Send(Advance(FillBlock(s.ring, s.rest[..n])), s.ring.widx, true)
    requires Inv(u.ring, false)
    ensures HeaderOk(u.ring, u.ring.widx) && u.Pending() == []
  {
    assert HeaderOk(s.ring, s.ring.widx) && HeaderOk(s.ring, u.ring.widx) && HeaderOk(u.ring, u.ring.widx);
  }

  /** Every step of the loop keeps the session in order. */
  lemma PlayStepKeeps(s: Session, ok: bool)
    requires SessionInv(s) && s.lost.None? && s.rest != []
    ensures SessionInv(PlayStep(s, ok))
  {
    ReleaseKeeps(s);
    var u := s.(ring := Release(s.ring, false));
    FreeBlock(u.ring);
    hide SessionInv, Inv, Send, Advance, FillBlock, Release;
    if u.ring.headers[u.ring.widx].sent == 0 {
      var n := Min(Room(u.ring), |s.rest|);
      if n < Room(u.ring) {
        FillKeeps(u, n);
      } else {
        FillUpKeeps(u, n, ok);
      }
    }
  }

  /** So does every event. */
  lemma StepKeeps(s: Session, e: Event)
    requires SessionInv(s)
    ensures SessionInv(Step(s, e))
  {
    match e {
      case Submit(buffer) =>
        SubmitKeeps(s, buffer);
      case Play(ok) =>
        if s.lost.None? && s.rest != [] {
          PlayStepKeeps(s, ok);
        }
      case Complete(i) =>
        CompleteKeeps(s, i);
      case Poll =>
        ReleaseKeeps(s);
    }
  }

  lemma SubmitKeeps(s: Session, buffer: seq<byte>)
    requires SessionInv(s)
    ensures SessionInv(Step(s, Submit(buffer)))
  {
    if s.lost.None? && s.rest == [] {
      var t := s.(rest := buffer, submitted := s.submitted + buffer);
      assert HeaderOk(s.ring, s.ring.widx);
      assert t.Pending() == s.Pending();
      forall k | 0 <= k < t.ring.sentBlocks ensures HoldsHanded(t, k) {
        assert HoldsHanded(s, k);
      }
    }
  }

  lemma CompleteKeeps(s: Session, i: nat)
    requires SessionInv(s)
    ensures SessionInv(Step(s, Complete(i)))
  {
    if i < |s.ring.headers| && s.ring.headers[i].sent == 1 {
      MarkDoneOk(s.ring, s.lost.Some?, i);
      var t := s.(ring := MarkDone(s.ring, i));
      forall k | 0 <= k < t.ring.sentBlocks ensures HoldsHanded(t, k) {
        assert HoldsHanded(s, k);
      }
      assert HeaderOk(s.ring, s.ring.widx) && t.Pending() == s.Pending();
    }
  }

  /** The state after a run: any sequence of play calls, passes of their loops, completions by the
      device in any order and at any time, and polls. */
  ghost function Run(s: Session, events: seq<Event>): (t: Session)
    requires SessionInv(s)
    ensures SessionInv(t)
    decreases |events|
  {
    if events == [] then s
    else
      StepKeeps(s, events[0]);
      Run(Step(s, events[0]), events[1..])
  }

  lemma StartOk(blocks: nat, length: nat)
    requires blocks > 0 && length > 0
    ensures SessionInv(Start(blocks, length))
  {
    NewRingOk(blocks, length);
  }

  /** A pass of the loop writes to the block being filled, and only when that is not sent. */
  lemma PlayStepWrites(s: Session, ok: bool)
    requires SessionInv(s) && s.lost.None? && s.rest != []
    ensures var r, t := Release(s.ring, false), PlayStep(s, ok).ring;
            && t.length == r.length == s.ring.length
            && |t.headers| == |t.data| == |r.headers| == |r.data| == |s.ring.headers|
            && forall i :: 0 <= i < |r.headers| && (i != r.widx || r.headers[i].sent != 0) ==>
                 t.data[i] == r.data[i] && t.headers[i] == r.headers[i]
  {
    hide SessionInv, HeaderOk;
  }

  /** The loop waits only while every block is sent; otherwise it copies at least one byte. */
  lemma PlayStepProgress(s: Session, ok: bool)
    requires SessionInv(s) && s.lost.None? && s.rest != []
    ensures if Release(s.ring, false).sentBlocks == |s.ring.headers| then PlayStep(s, ok).rest == s.rest
            else |PlayStep(s, ok).rest| < |s.rest|
  {
    FreeBlock(Release(s.ring, false));
  }

  /** What a pass copies when it does not wait: all that is left of the call, or as much as the block being
      filled has room for. A block that is filled up is accepted or refused as a whole. */
  lemma PlayStepCopies(s: Session, ok: bool)
    requires SessionInv(s) && s.lost.None? && s.rest != []
    requires Release(s.ring, false).sentBlocks < |s.ring.headers|
    ensures |s.ring.data[s.ring.widx]| == s.ring.length > s.ring.headers[s.ring.widx].count
    ensures var room, t := s.ring.length - s.ring.headers[s.ring.widx].count, PlayStep(s, ok);
            && t.submitted == s.submitted
            && if |s.rest| < room then
                 t.rest == [] && t.handed == s.handed && t.lost == None
               else
                 var block := s.Pending() + s.rest[..room];
                 && t.rest == s.rest[room..]
                 && t.handed == (if ok then s.handed + [block] else s.handed)
                 && t.lost == (if ok then None else Some(block))
  {
    ReleaseKeeps(s);
    ReleaseTouchesTheFront(s.ring, false);
    var u := s.(ring := Release(s.ring, false));
    FreeBlock(u.ring);
    SameCount(s);
    hide SessionInv, Inv, Send, Advance, FillBlock, Release, HeaderOk, FrontDone, PlayStep;
    var n := Min(Room(u.ring), |s.rest|);
    if n < Room(u.ring) {
      PlayStepFills(s, ok, u.ring, n);
    } else {
      PlayStepSends(s, ok, u.ring, n);
      FillUpKeeps(u, n, ok);
      FilledData(u.ring, s.rest[..n]);
    }
  }

  lemma FilledData(r: Ring, chunk: seq<byte>)
    requires r.widx < |r.headers| == |r.data|
    requires r.headers[r.widx].count + |chunk| <= |r.data[r.widx]|
    ensures Advance(FillBlock(r, chunk)).data == FillBlock(r, chunk).data && |FillBlock(r, chunk).data| == |r.data|
  {
  }

  lemma SameCount(s: Session)
    requires SessionInv(s)
    ensures var r, t := s.ring, Release(s.ring, s.lost.Some?);
            && |t.headers| == |r.headers| && t.headers[r.widx].count == r.headers[r.widx].count
            && r.headers[r.widx].count < r.length == |r.data[r.widx]|
            && t.headers[r.widx].bufferLength == r.length
  {
    ReleaseTouchesTheFront(s.ring, s.lost.Some?);
    assert HeaderOk(s.ring, s.ring.widx);
  }

  lemma StepKeepsShape(s: Session, e: Event)
    requires SessionInv(s)
    ensures Step(s, e).ring.length == s.ring.length
    ensures |Step(s, e).ring.headers| == |s.ring.headers|
  {
    hide PlayStep, Release, HeaderOk;
    if e.Play? && s.lost.None? && s.rest != [] {
      PlayStepWrites(s, e.ok);
    }
  }

  lemma {:induction false} RunKeepsShape(s: Session, events: seq<Event>)
    requires SessionInv(s)
    ensures Run(s, events).ring.length == s.ring.length
    ensures |Run(s, events).ring.headers| == |s.ring.headers|
    decreases |events|
  {
    if events != [] {
      StepKeeps(s, events[0]);
      StepKeepsShape(s, events[0]);
      RunKeepsShape(Step(s, events[0]), events[1..]);
    }
  }

  /** No block that the device still holds is ever written. */
  lemma HeldBlockIsNotWritten(s: Session, e: Event, i: nat)
    requires SessionInv(s) && i < |s.ring.headers|
    requires s.ring.headers[i].sent != 0 && !s.ring.headers[i].done
    ensures |Step(s, e).ring.data| == |s.ring.data| == |s.ring.headers|
    ensures Step(s, e).ring.data[i] == s.ring.data[i]
    ensures e != Complete(i) ==> Step(s, e).ring.headers[i] == s.ring.headers[i]
  {
    assert HeaderOk(s.ring, i);
    HeldIsNotReleased(s.ring, s.lost.Some?, i);
    hide PlayStep, Release, HeaderOk, Conserved, HoldsHanded;
    if e.Play? && s.lost.None? && s.rest != [] {
      PlayStepWrites(s, e.ok);
    }
  }

  lemma HeldIsNotReleased(r: Ring, failed: bool, i: nat)
    requires Inv(r, failed) && i < |r.headers| && r.headers[i].sent != 0 && !r.headers[i].done
    ensures Release(r, failed).headers[i] == r.headers[i]
  {
    ReleasesTheFront(r, failed);
    ReleaseTouchesTheFront(r, failed);
    assert HeaderOk(r, i);
    var k := Off(r.ridx, i, |r.headers|);
    assert Nth(r, k) == i;
  }

  /** Conservation and order, over every run: the blocks the device accepted are all exactly full,
      and one after the other, followed by the bytes of the partly filled block, they are what was
      submitted, up to what is left of a play call that is still going on. The counters stay in
      range, the sent blocks are the run that starts at the oldest, and the block to be filled
      comes next. */
  lemma WmmConservation(blocks: nat, length: nat, events: seq<Event>)
    requires blocks > 0 && length > 0
    ensures SessionInv(Start(blocks, length))
    ensures
      var t := Run(Start(blocks, length), events);
      && t.ring.length == length && |t.ring.headers| == blocks
      && (forall i :: 0 <= i < |t.handed| ==> |t.handed[i]| == length)
      && (t.lost.None? ==>
            && t.ring.widx < |t.ring.data| == blocks
            && t.ring.headers[t.ring.widx].count < length == |t.ring.data[t.ring.widx]|
            && t.submitted == Concat(t.handed) + t.Pending() + t.rest)
      && (t.lost.Some? ==>
            |t.lost.value| == length && t.submitted == Concat(t.handed) + t.lost.value + t.rest)
      && 0 <= t.ring.sentBlocks <= t.ring.fullBlocks <= blocks
      && t.ring.widx == Nth(t.ring, t.ring.sentBlocks + AsInt(t.lost.Some?))
      && (forall i :: 0 <= i < blocks ==>
            (t.ring.headers[i].sent != 0 <==> Off(t.ring.ridx, i, blocks) < t.ring.sentBlocks))
  {
    StartOk(blocks, length);
    var t := Run(Start(blocks, length), events);
    RunKeepsShape(Start(blocks, length), events);
    assert HeaderOk(t.ring, t.ring.widx);
    forall i | 0 <= i < blocks
      ensures t.ring.headers[i].sent != 0 <==> Off(t.ring.ridx, i, blocks) < t.ring.sentBlocks
    {
      assert HeaderOk(t.ring, i);
    }
  }
}
