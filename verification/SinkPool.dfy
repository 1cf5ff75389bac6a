/**
 The sinks of a server's console (daemon/system/sink_pool.go): a pool of channels used as rolling buffers.
 A push is one step, and readers may drain a channel between any two steps. A send to or a close of a
 closed channel panics. `Ch` is the identity of a channel, `M` a message.
 */
module SinkPool {
  import opened Wrappers
  import opened Sequences

  datatype Chan<M> = Chan(cap: nat, buf: seq<M>, closed: bool)

  /** The registered sinks, some of which may be nil, and the channels the pool has been given so far. */
  datatype Pool<Ch, M> = Pool(sinks: seq<Option<Ch>>, chans: map<Ch, Chan<M>>, panicked: bool)

  // ---------------------------------------------------------------------------
  // Steps
  // ---------------------------------------------------------------------------

  /** A message to a channel that is full pushes the oldest one out; without a buffer it is lost. */
  function Roll<M>(ch: Chan<M>, data: M): Chan<M> {
    if |ch.buf| < ch.cap then ch.(buf := ch.buf + [data])
    else if ch.buf == [] then ch
    else ch.(buf := ch.buf[1..] + [data])
  }

  function OnStep<Ch, M>(p: Pool<Ch, M>, c: Option<Ch>, ch: Chan<M>): Pool<Ch, M> {
    Pool(p.sinks + [c], if c.Some? then p.chans[c.value := ch] else p.chans, p.panicked)
  }

  function Close<Ch, M>(p: Pool<Ch, M>, c: Ch): Pool<Ch, M> {
    if c !in p.chans || p.chans[c].closed then p.(panicked := true)
    else p.(chans := p.chans[c := p.chans[c].(closed := true)])
  }

  function FirstIndex<Ch(==)>(sinks: seq<Option<Ch>>, c: Option<Ch>): (i: nat)
    ensures i <= |sinks| && c !in sinks[..i] && (i < |sinks| ==> sinks[i] == c)
  {
    if sinks == [] || sinks[0] == c then 0
    else
      var i := 1 + FirstIndex(sinks[1..], c);
      assert sinks[..i] == [sinks[0]] + sinks[1..][..i - 1];
      i
  }

  function OffStep<Ch(==), M>(p: Pool<Ch, M>, c: Option<Ch>): Pool<Ch, M> {
    var i := FirstIndex(p.sinks, c);
    if i == |p.sinks| then p
    else
      var rest := p.(sinks := p.sinks[..i] + p.sinks[i + 1..]);
      if c.Some? then Close(rest, c.value) else rest
  }

  function CloseAll<Ch, M>(p: Pool<Ch, M>, sinks: seq<Option<Ch>>): Pool<Ch, M>
    decreases |sinks|
  {
    if sinks == [] || p.panicked then p
    else CloseAll(if sinks[0].Some? then Close(p, sinks[0].value) else p, sinks[1..])
  }

  function DestroyStep<Ch, M>(p: Pool<Ch, M>): Pool<Ch, M> {
    var closed := CloseAll(p, p.sinks);
    if closed.panicked then closed else closed.(sinks := [])
  }

  function Send<Ch, M>(p: Pool<Ch, M>, c: Ch, data: M): Pool<Ch, M> {
    if c !in p.chans || p.chans[c].closed then p.(panicked := true)
    else p.(chans := p.chans[c := Roll(p.chans[c], data)])
  }

  function SendAll<Ch, M>(p: Pool<Ch, M>, sinks: seq<Option<Ch>>, data: M): Pool<Ch, M>
    decreases |sinks|
  {
    if sinks == [] || p.panicked then p
    else SendAll(if sinks[0].Some? then Send(p, sinks[0].value, data) else p, sinks[1..], data)
  }

  /** A reader takes the oldest message. */
  function ReadStep<Ch, M>(p: Pool<Ch, M>, c: Ch): Pool<Ch, M> {
    if c in p.chans && p.chans[c].buf != [] then p.(chans := p.chans[c := p.chans[c].(buf := p.chans[c].buf[1..])])
    else p
  }

  datatype Op<Ch, M> =
    | On(c: Option<Ch>, ch: Chan<M>)
    | Off(c: Option<Ch>)
    | Destroy
    | Push(data: M)
    | Read(reader: Ch)

  function Step<Ch(==), M>(p: Pool<Ch, M>, op: Op<Ch, M>): Pool<Ch, M> {
    match op
    case On(c, ch) => OnStep(p, c, ch)
    case Off(c) => OffStep(p, c)
    case Destroy => DestroyStep(p)
    case Push(data) => SendAll(p, p.sinks, data)
    case Read(c) => ReadStep(p, c)
  }

  function Run<Ch(==), M>(p: Pool<Ch, M>, ops: seq<Op<Ch, M>>): Pool<Ch, M>
    decreases |ops|
  {
    if ops == [] then p else Run(Step(p, ops[0]), ops[1..])
  }

  // ---------------------------------------------------------------------------
  // Channels registered once
  // ---------------------------------------------------------------------------

  ghost predicate NoneTwice<Ch>(sinks: seq<Option<Ch>>) {
    forall i, j :: 0 <= i < j < |sinks| && sinks[i].Some? ==> sinks[i] != sinks[j]
  }

  ghost predicate AllOpen<Ch, M>(p: Pool<Ch, M>) {
    forall i :: 0 <= i < |p.sinks| && p.sinks[i].Some? ==>
      p.sinks[i].value in p.chans && !p.chans[p.sinks[i].value].closed
  }

  ghost predicate WithinCapacity<Ch, M>(p: Pool<Ch, M>) {
    forall c :: c in p.chans ==> |p.chans[c].buf| <= p.chans[c].cap
  }

  ghost predicate Inv<Ch, M>(p: Pool<Ch, M>) {
    !p.panicked && NoneTwice(p.sinks) && AllOpen(p) && WithinCapacity(p)
  }

  /** On is given a new, empty, open channel that the pool has never had. */
  predicate IsNew<Ch, M>(p: Pool<Ch, M>, op: Op<Ch, M>) {
    op.On? && op.c.Some? ==> op.c.value !in p.chans && op.ch.buf == [] && !op.ch.closed
  }

  predicate AlwaysNew<Ch(==), M>(p: Pool<Ch, M>, ops: seq<Op<Ch, M>>)
    decreases |ops|
  {
    ops == [] || (IsNew(p, ops[0]) && AlwaysNew(Step(p, ops[0]), ops[1..]))
  }

  /** What sending to the sinks does to one channel. */
  lemma {:induction false} SendAllDoes<Ch, M>(p: Pool<Ch, M>, sinks: seq<Option<Ch>>, data: M)
    requires Inv(p.(sinks := sinks))
    ensures var q := SendAll(p, sinks, data);
            !q.panicked && q.sinks == p.sinks && q.chans.Keys == p.chans.Keys
            && forall c :: c in p.chans ==>
                 q.chans[c] == if Some(c) in sinks then Roll(p.chans[c], data) else p.chans[c]
    decreases |sinks|
  {
    if sinks != [] {
      var p' := if sinks[0].Some? then Send(p, sinks[0].value, data) else p;
      assert forall i :: 0 <= i < |sinks[1..]| ==> sinks[1..][i] == sinks[i + 1];
      SendAllDoes(p', sinks[1..], data);
      assert sinks == [sinks[0]] + sinks[1..];
    }
  }

  lemma {:induction false} CloseAllDoes<Ch, M>(p: Pool<Ch, M>, sinks: seq<Option<Ch>>)
    requires Inv(p.(sinks := sinks))
    ensures var q := CloseAll(p, sinks);
            !q.panicked && q.chans.Keys == p.chans.Keys
            && forall c :: c in p.chans ==>
                 q.chans[c] == if Some(c) in sinks then p.chans[c].(closed := true) else p.chans[c]
    decreases |sinks|
  {
    if sinks != [] {
      var p' := if sinks[0].Some? then Close(p, sinks[0].value) else p;
      assert forall i :: 0 <= i < |sinks[1..]| ==> sinks[1..][i] == sinks[i + 1];
      CloseAllDoes(p', sinks[1..]);
      assert sinks == [sinks[0]] + sinks[1..];
    }
  }

  /** The sinks other than `c`, in order. */
  function Without<Ch(==)>(sinks: seq<Option<Ch>>, c: Option<Ch>): seq<Option<Ch>> {
    if sinks == [] then []
    else (if sinks[0] == c then [] else [sinks[0]]) + Without(sinks[1..], c)
  }

  lemma {:induction false} WithoutAbsent<Ch>(sinks: seq<Option<Ch>>, c: Option<Ch>)
    requires c !in sinks
    ensures Without(sinks, c) == sinks
  {
    if sinks != [] {
      WithoutAbsent(sinks[1..], c);
      assert [sinks[0]] + sinks[1..] == sinks;
    }
  }

  lemma {:induction false} RemoveFirstIsWithout<Ch>(sinks: seq<Option<Ch>>, c: Option<Ch>)
    requires NoneTwice(sinks) && c.Some? && c in sinks
    ensures var i := FirstIndex(sinks, c);
            i < |sinks| && sinks[..i] + sinks[i + 1..] == Without(sinks, c)
  {
    assert sinks[..|sinks|] == sinks;
    if sinks[0] == c {
      assert c !in sinks[1..];
      WithoutAbsent(sinks[1..], c);
    } else {
      assert forall i :: 0 <= i < |sinks[1..]| ==> sinks[1..][i] == sinks[i + 1];
      RemoveFirstIsWithout(sinks[1..], c);
      var i := FirstIndex(sinks[1..], c);
      assert sinks[..i + 1] + sinks[i + 2..] == [sinks[0]] + (sinks[1..][..i] + sinks[1..][i + 1..]);
    }
  }

  /** Off closes the channel and keeps the other sinks in their order; a channel that is not registered is
      left alone. */
  lemma OffKeepsOrder<Ch, M>(p: Pool<Ch, M>, c: Ch)
    requires Inv(p)
    ensures var q := OffStep(p, Some(c));
            !q.panicked && q.sinks == Without(p.sinks, Some(c))
            && q.chans == if Some(c) in p.sinks then p.chans[c := p.chans[c].(closed := true)] else p.chans
  {
    assert p.sinks[..|p.sinks|] == p.sinks;
    if Some(c) in p.sinks {
      RemoveFirstIsWithout(p.sinks, Some(c));
    } else {
      WithoutAbsent(p.sinks, Some(c));
    }
  }

  /** Off on a nil channel takes the first nil sink out, if there is one, and closes nothing. */
  lemma OffNil<Ch, M>(p: Pool<Ch, M>)
    ensures var q := OffStep(p, None);
            && q.chans == p.chans && q.panicked == p.panicked
            && (None !in p.sinks ==> q.sinks == p.sinks)
            && (None in p.sinks ==> exists i :: 0 <= i < |p.sinks| && p.sinks[i] == None && None !in p.sinks[..i]
                                                && q.sinks == p.sinks[..i] + p.sinks[i + 1..])
  {
    assert p.sinks[..|p.sinks|] == p.sinks;
  }

  /** Destroy leaves an empty pool with exactly the registered channels closed, their buffers still to be read. */
  lemma DestroyClosesAll<Ch, M>(p: Pool<Ch, M>, c: Ch)
    requires Inv(p)
    ensures var q := DestroyStep(p);
            && !q.panicked && q.sinks == [] && q.chans.Keys == p.chans.Keys
            && (c in p.chans ==> q.chans[c] == p.chans[c].(closed := p.chans[c].closed || Some(c) in p.sinks))
  {
    assert p == p.(sinks := p.sinks);
    CloseAllDoes(p, p.sinks);
  }

  /** A push that finds room, or something to push out, puts the message at the end of every registered buffer. */
  lemma PushReachesAll<Ch, M>(p: Pool<Ch, M>, data: M, c: Ch)
    requires Inv(p) && c in p.chans
    ensures var q := SendAll(p, p.sinks, data);
            && !q.panicked && q.sinks == p.sinks && c in q.chans
            && q.chans[c].buf ==
               if Some(c) !in p.sinks || p.chans[c].cap == 0 then p.chans[c].buf
               else (if |p.chans[c].buf| == p.chans[c].cap then p.chans[c].buf[1..] else p.chans[c].buf) + [data]
  {
    assert p == p.(sinks := p.sinks);
    SendAllDoes(p, p.sinks, data);
  }

  lemma TailOnce<Ch>(sinks: seq<Option<Ch>>)
    requires sinks != []
    ensures NoneTwice(sinks) <==> NoneTwice(sinks[1..]) && (sinks[0].Some? ==> sinks[0] !in sinks[1..])
  {
    var tail := sinks[1..];
    assert forall i :: 0 <= i < |tail| ==> tail[i] == sinks[i + 1];
    if NoneTwice(tail) && (sinks[0].Some? ==> sinks[0] !in tail) {
      forall i, j | 0 <= i < j < |sinks| && sinks[i].Some? ensures sinks[i] != sinks[j] {
        if i == 0 {
          assert sinks[j] == tail[j - 1];
        } else {
          assert sinks[i] == tail[i - 1] && sinks[j] == tail[j - 1];
        }
      }
    }
  }

  lemma {:induction false} WithoutIsPart<Ch>(sinks: seq<Option<Ch>>, c: Option<Ch>)
    requires NoneTwice(sinks)
    ensures var rest := Without(sinks, c);
            NoneTwice(rest) && forall d :: d in rest <==> d in sinks && (d != c)
  {
    if sinks != [] {
      TailOnce(sinks);
      WithoutIsPart(sinks[1..], c);
      var rest := Without(sinks, c);
      if sinks[0] != c {
        assert rest[1..] == Without(sinks[1..], c);
        TailOnce(rest);
      }
      assert sinks == [sinks[0]] + sinks[1..];
    }
  }

  lemma StepKeepsInv<Ch, M>(p: Pool<Ch, M>, op: Op<Ch, M>)
    requires Inv(p) && IsNew(p, op)
    ensures Inv(Step(p, op)) && p.chans.Keys <= Step(p, op).chans.Keys
  {
    assert p == p.(sinks := p.sinks);
    match op
    case On(c, ch) =>
    case Off(c) =>
      OffKeepsInv(p, c);
    case Destroy =>
      CloseAllDoes(p, p.sinks);
    case Push(data) =>
      SendAllDoes(p, p.sinks, data);
    case Read(c) =>
  }

  lemma OffKeepsInv<Ch, M>(p: Pool<Ch, M>, c: Option<Ch>)
    requires Inv(p)
    ensures Inv(OffStep(p, c)) && p.chans.Keys <= OffStep(p, c).chans.Keys
  {
    if c.Some? {
      OffKeepsOrder(p, c.value);
      WithoutIsPart(p.sinks, c);
      var q := OffStep(p, c);
      forall i | 0 <= i < |q.sinks| && q.sinks[i].Some?
        ensures q.sinks[i].value in q.chans && !q.chans[q.sinks[i].value].closed
      {
        assert q.sinks[i] in q.sinks;
      }
    }
  }

  /** Over every run in which a channel is registered at most once, nothing ever panics: no channel is
      closed twice or sent to after it was closed, and every buffer stays within its capacity. */
  lemma {:induction false} RegisteredOnceNeverPanics<Ch, M>(p: Pool<Ch, M>, ops: seq<Op<Ch, M>>)
    requires Inv(p) && AlwaysNew(p, ops)
    ensures Inv(Run(p, ops))
    decreases |ops|
  {
    if ops != [] {
      StepKeepsInv(p, ops[0]);
      RegisteredOnceNeverPanics(Step(p, ops[0]), ops[1..]);
    }
  }

  // ---------------------------------------------------------------------------
  // Rolling buffers
  // ---------------------------------------------------------------------------

  /** The messages pushed while `c` was registered. */
  function Heard<Ch(==), M>(p: Pool<Ch, M>, c: Ch, ops: seq<Op<Ch, M>>): seq<M>
    decreases |ops|
  {
    if ops == [] then []
    else HeardNow(p, c, ops[0]) + Heard(Step(p, ops[0]), c, ops[1..])
  }

  predicate IsSuffix<M(==)>(b: seq<M>, h: seq<M>) {
    |b| <= |h| && b == h[|h| - |b|..]
  }

  /** What one step does to the buffer of one channel. */
  lemma StepOnChannel<Ch, M>(p: Pool<Ch, M>, op: Op<Ch, M>, c: Ch)
    requires Inv(p) && IsNew(p, op) && c in p.chans
    ensures var q := Step(p, op);
            c in q.chans && q.chans[c].cap == p.chans[c].cap
            && q.chans[c].buf ==
               if op.Push? && Some(c) in p.sinks then Roll(p.chans[c], op.data).buf
               else if op == Read(c) && p.chans[c].buf != [] then p.chans[c].buf[1..]
               else p.chans[c].buf
  {
    assert p == p.(sinks := p.sinks);
    match op
    case On(d, ch) =>
    case Off(d) =>
      if d.Some? {
        OffKeepsOrder(p, d.value);
      }
    case Destroy =>
      CloseAllDoes(p, p.sinks);
    case Push(data) =>
      SendAllDoes(p, p.sinks, data);
    case Read(d) =>
  }

  lemma RollKeepsSuffix<M>(ch: Chan<M>, h: seq<M>, data: M)
    requires ch.cap > 0 && IsSuffix(ch.buf, h)
    ensures IsSuffix(Roll(ch, data).buf, h + [data])
    ensures |Roll(ch, data).buf| > 0 && Roll(ch, data).buf[|Roll(ch, data).buf| - 1] == data
  {
    var kept := if |ch.buf| < ch.cap then ch.buf else ch.buf[1..];
    assert kept == h[|h| - |kept|..];
    assert (h + [data])[|h| - |kept|..] == kept + [data];
  }

  /** The buffer of `c` is a contiguous end of `h` that fits the channel. */
  ghost predicate Tracks<Ch, M>(p: Pool<Ch, M>, c: Ch, h: seq<M>) {
    c in p.chans && p.chans[c].cap > 0 && |p.chans[c].buf| <= p.chans[c].cap && IsSuffix(p.chans[c].buf, h)
  }

  /** It is the longest such end. */
  ghost predicate TracksAll<Ch, M>(p: Pool<Ch, M>, c: Ch, h: seq<M>) {
    Tracks(p, c, h) && |p.chans[c].buf| == Least(|h|, p.chans[c].cap)
  }

  function HeardNow<Ch(==), M>(p: Pool<Ch, M>, c: Ch, op: Op<Ch, M>): seq<M> {
    if op.Push? && Some(c) in p.sinks then [op.data] else []
  }

  lemma PushStep<M>(ch: Chan<M>, h: seq<M>, data: M)
    requires ch.cap > 0 && |ch.buf| <= ch.cap && IsSuffix(ch.buf, h)
    ensures var ch' := Roll(ch, data);
            && ch'.cap == ch.cap && |ch'.buf| <= ch.cap && IsSuffix(ch'.buf, h + [data])
            && (|ch.buf| == Least(|h|, ch.cap) ==> |ch'.buf| == Least(|h + [data]|, ch.cap))
  {
    RollKeepsSuffix(ch, h, data);
  }

  lemma BufferStep<Ch, M>(p: Pool<Ch, M>, op: Op<Ch, M>, c: Ch, h: seq<M>)
    requires Inv(p) && IsNew(p, op) && Tracks(p, c, h)
    ensures var h' := h + HeardNow(p, c, op);
            Tracks(Step(p, op), c, h') && (op != Read(c) && TracksAll(p, c, h) ==> TracksAll(Step(p, op), c, h'))
  {
    StepOnChannel(p, op, c);
    var q := Step(p, op);
    if op.Push? && Some(c) in p.sinks {
      PushStep(p.chans[c], h, op.data);
    } else {
      NothingAfter(h);
      assert HeardNow(p, c, op) == [];
      assert q.chans[c].buf == p.chans[c].buf || (op == Read(c) && q.chans[c].buf == p.chans[c].buf[1..]);
    }
  }

  lemma NothingAfter<M>(h: seq<M>)
    ensures h + [] == h
  {
  }

  /** Under any reads, the buffer stays a contiguous end of the messages pushed since the channel joined,
      no longer than its capacity; without reads it is the longest such end. */
  lemma {:induction false} BufferFrom<Ch, M>(p: Pool<Ch, M>, c: Ch, ops: seq<Op<Ch, M>>, h: seq<M>)
    requires Inv(p) && AlwaysNew(p, ops) && Tracks(p, c, h)
    ensures Tracks(Run(p, ops), c, h + Heard(p, c, ops))
    ensures Read(c) !in ops && TracksAll(p, c, h) ==> TracksAll(Run(p, ops), c, h + Heard(p, c, ops))
    decreases |ops|
  {
    if ops == [] {
      assert h + Heard(p, c, ops) == h;
    } else {
      var p', h' := Step(p, ops[0]), h + HeardNow(p, c, ops[0]);
      StepKeepsInv(p, ops[0]);
      BufferStep(p, ops[0], c, h);
      BufferFrom(p', c, ops[1..], h');
      assert h + Heard(p, c, ops) == h' + Heard(p', c, ops[1..]);
    }
  }

  lemma JoinedTracks<Ch, M>(p: Pool<Ch, M>, c: Ch, ch: Chan<M>)
    requires Inv(p) && ch.cap > 0 && IsNew(p, On(Some(c), ch))
    ensures Inv(OnStep(p, Some(c), ch)) && TracksAll(OnStep(p, Some(c), ch), c, [])
  {
    StepKeepsInv(p, On(Some(c), ch));
  }

  /** From the moment a new channel joins, over every run. */
  lemma BufferIsEndOfHeard<Ch, M>(p: Pool<Ch, M>, c: Ch, ch: Chan<M>, ops: seq<Op<Ch, M>>)
    requires Inv(p) && ch.cap > 0 && IsNew(p, On(Some(c), ch)) && AlwaysNew(OnStep(p, Some(c), ch), ops)
    ensures var joined := OnStep(p, Some(c), ch);
            Tracks(Run(joined, ops), c, Heard(joined, c, ops))
            && (Read(c) !in ops ==> TracksAll(Run(joined, ops), c, Heard(joined, c, ops)))
  {
    var joined := OnStep(p, Some(c), ch);
    JoinedTracks(p, c, ch);
    BufferFrom(joined, c, ops, []);
    NothingBefore(Heard(joined, c, ops));
  }

  lemma NothingBefore<M>(h: seq<M>)
    ensures [] + h == h
  {
  }

  // ---------------------------------------------------------------------------
  // Channels registered twice
  // ---------------------------------------------------------------------------

  /** Destroying a pool of open channels panics exactly when some channel is registered twice. */
  lemma DestroyPanicsExactly<Ch, M>(p: Pool<Ch, M>)
    requires !p.panicked && AllOpen(p)
    ensures DestroyStep(p).panicked <==> !NoneTwice(p.sinks)
  {
    CloseAllPanicsExactly(p, p.sinks);
  }

  lemma {:induction false} CloseAllPanicsExactly<Ch, M>(p: Pool<Ch, M>, sinks: seq<Option<Ch>>)
    requires !p.panicked && forall c :: Some(c) in sinks ==> c in p.chans
    ensures CloseAll(p, sinks).panicked
            <==> !(NoneTwice(sinks) && forall c :: Some(c) in sinks ==> !p.chans[c].closed)
    decreases |sinks|
  {
    if sinks != [] {
      var tail := sinks[1..];
      assert sinks == [sinks[0]] + tail;
      var p' := if sinks[0].Some? then Close(p, sinks[0].value) else p;
      assert NoneTwice(sinks) <==> NoneTwice(tail) && (sinks[0].Some? ==> sinks[0] !in tail) by {
        TailOnce(sinks);
      }
      if !p'.panicked {
        CloseAllPanicsExactly(p', tail);
      }
    }
  }

  lemma OffLeavesSecond<Ch, M>(p: Pool<Ch, M>, c: Ch)
    requires !p.panicked && AllOpen(p) && multiset(p.sinks)[Some(c)] >= 2
    ensures var q := OffStep(p, Some(c));
            !q.panicked && Some(c) in q.sinks && c in q.chans && q.chans[c].closed
  {
    var i := FirstIndex(p.sinks, Some(c));
    assert Some(c) in p.sinks && p.sinks[..|p.sinks|] == p.sinks;
    OneLess(p.sinks, i);
  }

  lemma OneLess<T>(s: seq<T>, i: nat)
    requires i < |s| && multiset(s)[s[i]] >= 2
    ensures s[i] in s[..i] + s[i + 1..]
  {
    var rest := s[..i] + s[i + 1..];
    assert s == s[..i] + [s[i]] + s[i + 1..];
    assert multiset(s) == multiset(rest) + multiset{s[i]};
    assert s[i] in multiset(rest);
  }

  /** After Off on a channel that is registered twice, it is still registered but closed: the next Off,
      Push or Destroy panics. */
  lemma SecondRegistrationPanics<Ch, M>(p: Pool<Ch, M>, c: Ch, data: M)
    requires !p.panicked && AllOpen(p) && multiset(p.sinks)[Some(c)] >= 2
    ensures var q := OffStep(p, Some(c));
            !q.panicked && OffStep(q, Some(c)).panicked && DestroyStep(q).panicked && SendAll(q, q.sinks, data).panicked
  {
    OffLeavesSecond(p, c);
    ClosedSinkPanics(OffStep(p, Some(c)), c, data);
  }

  lemma ClosedSinkPanics<Ch, M>(q: Pool<Ch, M>, c: Ch, data: M)
    requires Some(c) in q.sinks && c in q.chans && q.chans[c].closed
    ensures OffStep(q, Some(c)).panicked && DestroyStep(q).panicked && SendAll(q, q.sinks, data).panicked
  {
    assert q.sinks[..|q.sinks|] == q.sinks;
    SendMeetsClosed(q, q.sinks, c, data);
    CloseMeetsClosed(q, q.sinks, c);
  }

  lemma {:induction false} SendMeetsClosed<Ch, M>(p: Pool<Ch, M>, sinks: seq<Option<Ch>>, c: Ch, data: M)
    requires Some(c) in sinks && c in p.chans && p.chans[c].closed
    ensures SendAll(p, sinks, data).panicked
    decreases |sinks|
  {
    if !p.panicked && sinks[0] != Some(c) {
      SendMeetsClosed(if sinks[0].Some? then Send(p, sinks[0].value, data) else p, sinks[1..], c, data);
    }
  }

  lemma {:induction false} CloseMeetsClosed<Ch, M>(p: Pool<Ch, M>, sinks: seq<Option<Ch>>, c: Ch)
    requires Some(c) in sinks && c in p.chans && p.chans[c].closed
    ensures CloseAll(p, sinks).panicked
    decreases |sinks|
  {
    if !p.panicked && sinks[0] != Some(c) {
      CloseMeetsClosed(if sinks[0].Some? then Close(p, sinks[0].value) else p, sinks[1..], c);
    }
  }

  // ---------------------------------------------------------------------------
  // The mutable pool
  // ---------------------------------------------------------------------------

  class Channel<M> {
    const cap: nat
    var buf: seq<M>
    var closed: bool

    constructor (cap: nat)
      ensures this.cap == cap && State() == Chan(cap, [], false)
    {
      this.cap := cap;
      buf, closed := [], false;
    }

    function State(): Chan<M>
      reads this
    {
      Chan(cap, buf, closed)
    }

    /** A non-blocking send, and if the channel is full, a receive that makes room for a second try. */
    method RollIn(data: M) returns (panicked: bool)
      modifies this
      ensures panicked == old(closed)
      ensures State() == if panicked then old(State()) else Roll(old(State()), data)
    {
      if closed {
        return true;
      }
      if |buf| < cap {
        buf := buf + [data];
      } else if |buf| > 0 {
        buf := buf[1..] + [data];
      }
      return false;
    }
  }

  function Identity<M>(c: Channel?<M>): Option<Channel<M>> {
    if c == null then None else Some(c)
  }

  function Identities<M>(sinks: seq<Channel?<M>>): (ids: seq<Option<Channel<M>>>)
    ensures |ids| == |sinks| && forall i :: 0 <= i < |sinks| ==> ids[i] == Identity(sinks[i])
  {
    if sinks == [] then [] else [Identity(sinks[0])] + Identities(sinks[1..])
  }

  class SinkPool<M> {
    var sinks: seq<Channel?<M>>
    var panicked: bool
    /** The channels the pool has been given. */
    ghost var known: set<Channel<M>>

    constructor ()
      ensures View() == Pool([], map[], false) && known == {}
    {
      sinks, panicked, known := [], false, {};
    }

    ghost function View(): Pool<Channel<M>, M>
      reads this, known
    {
      Pool(Identities(sinks), map c | c in known :: c.State(), panicked)
    }

    ghost predicate Valid()
      reads this
    {
      forall i :: 0 <= i < |sinks| && sinks[i] != null ==> sinks[i] in known
    }

    method On(c: Channel?<M>)
      requires Valid()
      modifies this
      ensures Valid()
      ensures View() == OnStep(old(View()), Identity(c), if c == null then Chan(0, [], false) else c.State())
    {
      sinks := sinks + [c];
      if c != null {
        known := known + {c};
      }
    }

    method CloseOne(c: Channel<M>)
      requires c in known
      modifies this`panicked, c
      ensures View() == Close(old(View()), c)
    {
      if c.closed {
        panicked := true;
      } else {
        c.closed := true;
      }
    }

    /** Shifts the sinks behind the `i`th one to the left. */
    method RemoveAt(i: nat)
      requires Valid() && i < |sinks|
      modifies this`sinks
      ensures Valid() && View() == old(View()).(sinks := old(View()).sinks[..i] + old(View()).sinks[i + 1..])
    {
      IdentitiesRemove(sinks, i);
      sinks := sinks[..i] + sinks[i + 1..];
    }

    method SendOne(c: Channel<M>, data: M)
      requires c in known
      modifies this`panicked, c
      ensures View() == Send(old(View()), c, data)
    {
      var closed := c.RollIn(data);
      if closed {
        panicked := true;
      }
    }

    method Off(c: Channel?<M>)
      requires Valid()
      modifies this`sinks, this`panicked, known
      ensures Valid()
      ensures View() == OffStep(old(View()), Identity(c))
    {
      for i := 0 to |sinks|
        invariant Valid() && View() == old(View()) && sinks == old(sinks)
        invariant c !in sinks[..i]
      {
        if c != sinks[i] {
          continue;
        }
        FirstAt(sinks, c, i);
        RemoveAt(i);
        if c != null {
          CloseOne(c);
        }
        return;
      }
      FirstAt(sinks, c, |sinks|);
    }

    method Destroy()
      requires Valid()
      modifies this`sinks, this`panicked, known
      ensures Valid()
      ensures !old(panicked) ==> View() == DestroyStep(old(View()))
    {
      if panicked {
        return;
      }
      ghost var ids := Identities(sinks);
      for i := 0 to |sinks|
        invariant Valid() && sinks == old(sinks) && known == old(known) && !panicked
        invariant CloseAll(old(View()), ids) == CloseAll(View(), ids[i..])
      {
        var c := sinks[i];
        assert ids[i..][1..] == ids[i + 1..];
        if c != null {
          CloseOne(c);
          if panicked {
            return;
          }
        }
      }
      sinks := [];
    }

    method Push(data: M)
      requires Valid()
      modifies this`panicked, known
      ensures Valid()
      ensures !old(panicked) ==> View() == SendAll(old(View()), old(View()).sinks, data)
    {
      if panicked {
        return;
      }
      ghost var ids := Identities(sinks);
      for i := 0 to |sinks|
        invariant Valid() && sinks == old(sinks) && known == old(known) && !panicked
        invariant SendAll(old(View()), ids, data) == SendAll(View(), ids[i..], data)
      {
        var c := sinks[i];
        assert ids[i..][1..] == ids[i + 1..];
        if c != null {
          SendOne(c, data);
          if panicked {
            return;
          }
        }
      }
    }
  }

  lemma {:induction false} IdentitiesRemove<M>(sinks: seq<Channel?<M>>, i: nat)
    requires i < |sinks|
    ensures Identities(sinks[..i] + sinks[i + 1..]) == Identities(sinks)[..i] + Identities(sinks)[i + 1..]
    decreases i
  {
    var tail := sinks[1..];
    if i == 0 {
      assert sinks[..0] + tail == tail;
    } else {
      var rest, shorter := sinks[..i] + sinks[i + 1..], tail[..i - 1] + tail[i..];
      assert rest[0] == sinks[0] && rest[1..] == shorter;
      IdentitiesRemove(tail, i - 1);
    }
  }

  lemma {:induction false} FirstAt<M>(sinks: seq<Channel?<M>>, c: Channel?<M>, i: nat)
    requires i <= |sinks| && c !in sinks[..i] && (i < |sinks| ==> sinks[i] == c)
    ensures FirstIndex(Identities(sinks), Identity(c)) == i
  {
    if i > 0 {
      assert sinks[0] == sinks[..i][0];
      assert sinks[1..][..i - 1] == sinks[..i][1..];
      FirstAt(sinks[1..], c, i - 1);
    }
  }
}
