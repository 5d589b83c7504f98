/** Runs of the state store: any interleaving of generate, present and sweep steps
    under one clock that never goes back. */
module StateRuns {
  import opened Values
  import opened StateStores

  datatype Op =
    | Generate(state: string, provider: string, redirectURI: string)
    | Present(state: string, provider: string)
    | Sweep

  datatype Step = Step(at: Time, op: Op)

  type Trace = seq<Step>

  ghost predicate Monotone(tr: Trace) {
    forall i, j :: 0 <= i < j < |tr| ==> tr[i].at <= tr[j].at
  }

  function Apply(m: States, s: Step, ttl: Time): States {
    match s.op
    case Generate(state, provider, redirectURI) => m[state := StateEntry(provider, redirectURI, s.at + ttl)]
    case Present(state, _) => m - {state}
    case Sweep => Swept(m, s.at)
  }

  function After(tr: Trace, ttl: Time): States {
    if tr == [] then map[] else Apply(After(tr[..|tr| - 1], ttl), tr[|tr| - 1], ttl)
  }

  lemma {:induction false} AfterStep(tr: Trace, i: nat, ttl: Time)
    requires i < |tr|
    ensures After(tr[..i + 1], ttl) == Apply(After(tr[..i], ttl), tr[i], ttl)
  {
    assert tr[..i + 1][..i] == tr[..i];
  }

  // ---- Single use, exactly ----

  function Accepted(tr: Trace, k: nat, ttl: Time): Option<string>
    requires k < |tr| && tr[k].op.Present?
  {
    Verdict(After(tr[..k], ttl), tr[k].op.state, tr[k].op.provider, tr[k].at)
  }

  predicate About(s: Step, state: string) {
    !s.op.Sweep? && s.op.state == state
  }

  /** Step i generated the token, and no step between i and k presented (or drew) it. */
  ghost predicate Unpresented(tr: Trace, i: nat, k: nat, state: string)
    requires i < k <= |tr|
  {
    && tr[i].op.Generate? && tr[i].op.state == state
    && forall j :: i < j < k ==> !About(tr[j], state)
  }

  /** A token is stored exactly when it was generated and neither presented nor swept
      since; under a monotone clock a sweep only takes tokens that have expired. */
  lemma {:induction false} StoredExactly(tr: Trace, k: nat, state: string, now: Time, ttl: Time)
    requires Monotone(tr) && k <= |tr| && (forall j :: 0 <= j < k ==> tr[j].at <= now)
    ensures var m := After(tr[..k], ttl);
      && (state in m ==> exists i: nat :: i < k && Unpresented(tr, i, k, state)
                          && m[state] == StateEntry(tr[i].op.provider, tr[i].op.redirectURI, tr[i].at + ttl))
      && (forall i: nat :: i < k && Unpresented(tr, i, k, state) && now <= tr[i].at + ttl ==>
            state in m && m[state] == StateEntry(tr[i].op.provider, tr[i].op.redirectURI, tr[i].at + ttl))
  {
    if k > 0 {
      var m, m' := After(tr[..k - 1], ttl), After(tr[..k], ttl);
      AfterStep(tr, k - 1, ttl);
      StoredExactly(tr, k - 1, state, now, ttl);
      if state in m' {
        if tr[k - 1].op.Generate? && tr[k - 1].op.state == state {
          assert Unpresented(tr, k - 1, k, state);
        } else {
          var i: nat :| i < k - 1 && Unpresented(tr, i, k - 1, state)
                        && m[state] == StateEntry(tr[i].op.provider, tr[i].op.redirectURI, tr[i].at + ttl);
          assert Unpresented(tr, i, k, state);
        }
      }
      forall i: nat | i < k && Unpresented(tr, i, k, state) && now <= tr[i].at + ttl
        ensures state in m' && m'[state] == StateEntry(tr[i].op.provider, tr[i].op.redirectURI, tr[i].at + ttl)
      {
        if i < k - 1 {
          assert Unpresented(tr, i, k - 1, state);
          assert !About(tr[k - 1], state);
        }
      }
    }
  }

  /** Single use: a presentation is accepted exactly when it is the first of its token
      since that was generated, by the issuing provider, no later than issue time plus
      ttl. It returns exactly the redirect stored then. */
  lemma {:induction false} SingleUse(tr: Trace, k: nat, ttl: Time)
    requires Monotone(tr) && k < |tr| && tr[k].op.Present?
    ensures Accepted(tr, k, ttl).Some? <==>
      exists i: nat :: i < k && Unpresented(tr, i, k, tr[k].op.state)
                       && tr[i].op.provider == tr[k].op.provider && tr[k].at <= tr[i].at + ttl
    ensures forall i: nat :: i < k && Unpresented(tr, i, k, tr[k].op.state) && Accepted(tr, k, ttl).Some? ==>
      Accepted(tr, k, ttl).value == tr[i].op.redirectURI
  {
    var state := tr[k].op.state;
    StoredExactly(tr, k, state, tr[k].at, ttl);
    forall i: nat, i': nat | i < k && i' < k && Unpresented(tr, i, k, state) && Unpresented(tr, i', k, state)
      ensures i == i'
    {
      assert i < i' ==> About(tr[i'], state);
      assert i' < i ==> About(tr[i], state);
    }
  }

  /** After any presentation of a token, whatever its answer, every later one fails, as
      long as the token is not drawn again. */
  lemma {:induction false} AnyPresentationConsumes(tr: Trace, j: nat, k: nat, ttl: Time)
    requires Monotone(tr) && j < k < |tr| && tr[j].op.Present? && tr[k].op.Present?
    requires tr[j].op.state == tr[k].op.state
    requires forall i :: j < i < k ==> !(tr[i].op.Generate? && tr[i].op.state == tr[k].op.state)
    ensures Accepted(tr, k, ttl).None?
  {
    SingleUse(tr, k, ttl);
    assert About(tr[j], tr[k].op.state);
  }

  // ---- Sweeps are transparent ----

  /** The same calls with every sweep left out. */
  function Unswept(tr: Trace): Trace {
    if tr == [] then []
    else Unswept(tr[..|tr| - 1]) + (if tr[|tr| - 1].op.Sweep? then [] else [tr[|tr| - 1]])
  }

  /** The answers to all presentations, in order. */
  function Answers(tr: Trace, ttl: Time): seq<Option<string>> {
    if tr == [] then []
    else
      var last := |tr| - 1;
      Answers(tr[..last], ttl) + if tr[last].op.Present? then [Accepted(tr, last, ttl)] else []
  }

  /** `small` is `big` without some entries that have expired by now. */
  ghost predicate DifferByExpired(small: States, big: States, now: Time) {
    && (forall k :: k in small ==> k in big && small[k] == big[k])
    && (forall k :: k in big && k !in small ==> Expired(big[k], now))
  }

  /** From maps that differ by entries expired at the step, a call leaves such maps, a
      sweep of the smaller one does, and a presentation is answered alike. */
  lemma {:induction false} StepKeepsDifference(small: States, big: States, s: Step, now: Time, ttl: Time)
    requires DifferByExpired(small, big, s.at) && s.at <= now
    ensures DifferByExpired(Apply(small, s, ttl), if s.op.Sweep? then big else Apply(big, s, ttl), now)
    ensures s.op.Present? ==>
      Verdict(small, s.op.state, s.op.provider, s.at) == Verdict(big, s.op.state, s.op.provider, s.at)
  {
  }

  lemma {:induction false} SweepSimulation(tr: Trace, now: Time, ttl: Time)
    requires Monotone(tr) && forall i :: 0 <= i < |tr| ==> tr[i].at <= now
    ensures DifferByExpired(After(tr, ttl), After(Unswept(tr), ttl), now)
    ensures Answers(tr, ttl) == Answers(Unswept(tr), ttl)
  {
    if tr != [] {
      var last := |tr| - 1;
      var pre, s := tr[..last], tr[last];
      SweepSimulation(pre, s.at, ttl);
      hide Apply, Verdict, DifferByExpired, Monotone;
      StepKeepsDifference(After(pre, ttl), After(Unswept(pre), ttl), s, now, ttl);
      if s.op.Sweep? {
        assert Unswept(tr) == Unswept(pre);
      } else {
        assert Unswept(tr)[..|Unswept(tr)| - 1] == Unswept(pre);
      }
    }
  }

  /** Two stores fed the same generate and present calls, with sweeps inserted anywhere
      in either, answer every presentation alike. */
  lemma {:induction false} SweeperTransparent(tr: Trace, tr': Trace, ttl: Time)
    requires Monotone(tr) && Monotone(tr')
    requires Unswept(tr) == Unswept(tr')
    ensures Answers(tr, ttl) == Answers(tr', ttl)
  {
    SweepSimulation(tr, if tr == [] then 0 else tr[|tr| - 1].at, ttl);
    SweepSimulation(tr', if tr' == [] then 0 else tr'[|tr'| - 1].at, ttl);
  }

  // ---- Conservation and bound ----

  function Count(tr: Trace, f: (States, Step) -> nat, ttl: Time): nat {
    if tr == [] then 0
    else Count(tr[..|tr| - 1], f, ttl) + f(After(tr[..|tr| - 1], ttl), tr[|tr| - 1])
  }

  /** Tokens drawn by a step, and entries it consumes, sweeps away or overwrites. */
  function Drawn(m: States, s: Step): nat { if s.op.Generate? then 1 else 0 }

  function Consumed(m: States, s: Step): nat { if s.op.Present? && s.op.state in m then 1 else 0 }

  function SweptAway(m: States, s: Step): nat {
    if s.op.Sweep? then |set k | k in m && Expired(m[k], s.at)| else 0
  }

  function Overwritten(m: States, s: Step): nat { if s.op.Generate? && s.op.state in m then 1 else 0 }

  /** Random tokens are never drawn twice. */
  ghost predicate FreshTokens(tr: Trace) {
    forall i, j :: 0 <= i < j < |tr| && tr[i].op.Generate? && tr[j].op.Generate? ==> tr[i].op.state != tr[j].op.state
  }

  lemma {:induction false} SweptSize(m: States, now: Time)
    ensures |m| == |Swept(m, now)| + |set k | k in m && Expired(m[k], now)|
  {
    var gone := set k | k in m && Expired(m[k], now);
    assert m.Keys == Swept(m, now).Keys + gone;
    assert |m.Keys| == |Swept(m, now).Keys| + |gone|;
  }

  /** Every token drawn is live, consumed, swept away or overwritten. */
  lemma {:induction false} Conservation(tr: Trace, ttl: Time)
    ensures Count(tr, Drawn, ttl) ==
      |After(tr, ttl)| + Count(tr, Consumed, ttl) + Count(tr, SweptAway, ttl) + Count(tr, Overwritten, ttl)
  {
    if tr != [] {
      var last := |tr| - 1;
      var m, s := After(tr[..last], ttl), tr[last];
      Conservation(tr[..last], ttl);
      match s.op
      case Generate(state, _, _) => assert Apply(m, s, ttl).Keys == m.Keys + {state};
      case Present(state, _) =>
        assert Apply(m, s, ttl).Keys == m.Keys - {state};
        assert state !in m ==> m - {state} == m;
      case Sweep => SweptSize(m, s.at);
    }
  }

  /** Fresh tokens are never overwritten. */
  lemma {:induction false} FreshNeverOverwrites(tr: Trace, ttl: Time)
    requires FreshTokens(tr)
    ensures Count(tr, Overwritten, ttl) == 0
    ensures forall k :: k in After(tr, ttl) ==> exists i :: 0 <= i < |tr| && tr[i].op.Generate? && tr[i].op.state == k
  {
    if tr != [] {
      var last := |tr| - 1;
      FreshNeverOverwrites(tr[..last], ttl);
      assert forall i :: 0 <= i < last ==> tr[..last][i] == tr[i];
      assert forall k :: k in After(tr, ttl) ==>
        k in After(tr[..last], ttl) || (tr[last].op.Generate? && tr[last].op.state == k);
    }
  }

  lemma {:induction false} GeneratedIsLiveConsumedOrSwept(tr: Trace, ttl: Time)
    requires FreshTokens(tr)
    ensures Count(tr, Drawn, ttl) == |After(tr, ttl)| + Count(tr, Consumed, ttl) + Count(tr, SweptAway, ttl)
  {
    Conservation(tr, ttl);
    FreshNeverOverwrites(tr, ttl);
  }

  /** Tokens generated within [from, to]. */
  function DrawnWithin(tr: Trace, from: Time, to: Time): nat {
    if tr == [] then 0
    else DrawnWithin(tr[..|tr| - 1], from, to)
         + if tr[|tr| - 1].op.Generate? && from <= tr[|tr| - 1].at <= to then 1 else 0
  }

  /** Live entries good at `now` never outnumber the generate steps of the last ttl. */
  lemma {:induction false} LiveBound(tr: Trace, now: Time, ttl: Time)
    requires forall i :: 0 <= i < |tr| ==> tr[i].at <= now
    ensures |Swept(After(tr, ttl), now)| <= DrawnWithin(tr, now - ttl, now)
  {
    if tr != [] {
      var last := |tr| - 1;
      var m, s := After(tr[..last], ttl), tr[last];
      LiveBound(tr[..last], now, ttl);
      var before, after := Swept(m, now).Keys, Swept(Apply(m, s, ttl), now).Keys;
      if s.op.Generate? {
        if now - ttl <= s.at {
          assert after <= before + {s.op.state};
          SubsetSize(after, before + {s.op.state});
        } else {
          assert after <= before;
          SubsetSize(after, before);
        }
      } else {
        assert after <= before;
        SubsetSize(after, before);
      }
    }
  }

  /** Just after a sweep at time t, the live count is at most the number of tokens
      generated in [t - ttl, t]. */
  lemma {:induction false} BoundAfterSweep(tr: Trace, ttl: Time)
    requires Monotone(tr) && tr != [] && tr[|tr| - 1].op.Sweep?
    ensures var t := tr[|tr| - 1].at;
      |After(tr, ttl)| <= DrawnWithin(tr, t - ttl, t)
  {
    LiveBound(tr[..|tr| - 1], tr[|tr| - 1].at, ttl);
  }
}
