/** Extending runs of the interleaved machine, to say what may still happen in a state. */
module ChatPaths {
  import opened Prelude
  import opened ChatStore
  import opened ChatMachine

  ghost function Last(run: seq<Sys>): Sys
    requires |run| > 0
  {
    run[|run| - 1]
  }

  /** `longer` is a run that goes on from `run`. */
  ghost predicate Continues(run: seq<Sys>, longer: seq<Sys>) {
    0 < |run| <= |longer| && longer[..|run|] == run && IsRun(longer)
  }

  /** From the last state of `run` on, accounts, blocks and clock stand still. */
  ghost predicate Quietly(run: seq<Sys>, longer: seq<Sys>) {
    Continues(run, longer) && forall k | |run| - 1 <= k < |longer| :: Still(Last(run), longer[k])
  }

  ghost predicate Still(s: Sys, t: Sys) {
    t.db.accounts == s.db.accounts && t.db.blocks == s.db.blocks && t.clock == s.clock
  }

  lemma QuietlyTwice(run: seq<Sys>, longer: seq<Sys>, longest: seq<Sys>)
    requires Quietly(run, longer) && Quietly(longer, longest)
    ensures Quietly(run, longest)
  {
    assert longest[..|run|] == longest[..|longer|][..|run|];
    forall k | |run| - 1 <= k < |longest|
      ensures Still(Last(run), longest[k])
    {
      assert Still(Last(run), Last(longer));
      if k < |longer| {
        assert longest[k] == longest[..|longer|][k];
      }
    }
  }

  lemma ContinuesTwice(run: seq<Sys>, longer: seq<Sys>, longest: seq<Sys>)
    requires Continues(run, longer) && Continues(longer, longest)
    ensures Continues(run, longest)
  {
    assert longest[..|run|] == longest[..|longer|][..|run|];
  }

  /** A run takes one more step. */
  lemma {:induction false} Extend(run: seq<Sys>, e: Event) returns (longer: seq<Sys>)
    requires IsRun(run) && Enabled(Last(run), e)
    ensures longer == run + [Apply(Last(run), e)] && Continues(run, longer)
  {
    longer := run + [Apply(Last(run), e)];
    forall i | 0 <= i < |longer| - 1
      ensures StepsAt(longer, i)
    {
      if i + 1 < |run| {
        assert StepsAt(run, i);
      }
    }
  }

  /** A call in flight takes its next statement. */
  lemma {:induction false} Proceed(run: seq<Sys>, c: nat) returns (longer: seq<Sys>, q: Uuid, l: Uuid)
    requires IsRun(run) && c in Last(run).calls && !Last(run).calls[c].Done?
    ensures Enabled(Last(run), Exec(c, q, l)) && Continues(run, longer)
    ensures longer == run + [Apply(Last(run), Exec(c, q, l))]
  {
    q, l := TwoFresh(Last(run).used);
    longer := Extend(run, Exec(c, q, l));
  }

  /** A new call starts. */
  lemma {:induction false} Begin(run: seq<Sys>, call: Call) returns (longer: seq<Sys>, c: nat)
    requires IsRun(run) && Initial(call)
    ensures c !in Last(run).calls && Quietly(run, longer)
    ensures longer == run + [Last(run).(calls := Last(run).calls[c := call])]
  {
    c := Above(Last(run).calls.Keys);
    longer := Extend(run, Start(c, call));
  }

  lemma {:induction false} ClockGrows(run: seq<Sys>, i: nat, j: nat)
    requires IsRun(run) && i <= j < |run|
    ensures run[i].clock <= run[j].clock
  {
    if i < j {
      ClockGrows(run, i, j - 1);
      StepAt(run, j - 1);
      hide Next, IsRun;
    }
  }
}
