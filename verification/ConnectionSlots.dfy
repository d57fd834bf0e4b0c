/** The connection semaphore of the enhanced Docker client, with its connection metrics: executeWithRateLimit
    as a step system over any number of concurrent calls. */
module ConnectionSlots {
  import opened Folds

  /** Where a call of executeWithRateLimit is. Its deferred steps run on every return path. */
  datatype Call =
    | Away
    | Open                    // saw the client open, waiting for a slot
    | Acquired                // took a token
    | Raised(value: int)      // ActiveConnections.Add(1) returned value, peak not yet compared
    | Calling                 // rate limiting and the operation
    | Lowered(value: int)     // ActiveConnections.Add(-1) returned value, peak not yet compared
    | Returning               // about to put the token back

  datatype Client = Client(
    maxConnections: nat, tokens: nat, closed: bool, calls: seq<Call>,
    active: int, peak: int,
    highest: int)             // the largest ActiveConnections so far

  datatype Step =
    | Enter(i: nat) | Acquire(i: nat) | Refuse(i: nat)
    | Raise(i: nat) | NoteRaised(i: nat) | Finish(i: nat)
    | NoteLowered(i: nat) | Return(i: nat)
    | Close

  /** NewEnhancedClient fills the channel with one token per connection. */
  ghost function Init(maxConnections: nat, calls: nat): Client {
    Client(maxConnections, maxConnections, false, seq(calls, _ => Away), 0, 0, 0)
  }

  ghost function Max(x: int, y: int): int { if x < y then y else x }

  ghost predicate At(s: Client, i: nat, p: Call) { i < |s.calls| && s.calls[i] == p }

  ghost predicate Enabled(s: Client, step: Step) {
    match step
    case Enter(i) => At(s, i, Away)
    case Acquire(i) => At(s, i, Open) && s.tokens > 0
    case Refuse(i) => At(s, i, Open)                        // context done, or closing
    case Raise(i) => At(s, i, Acquired)
    case NoteRaised(i) => i < |s.calls| && s.calls[i].Raised?
    case Finish(i) => At(s, i, Calling)
    case NoteLowered(i) => i < |s.calls| && s.calls[i].Lowered?
    case Return(i) => At(s, i, Returning) && s.tokens < s.maxConnections   // a full channel blocks the sender
    case Close => true
  }

  ghost function Next(s: Client, step: Step): Client
    requires Enabled(s, step)
  {
    match step
    case Enter(i) => if s.closed then s else s.(calls := s.calls[i := Open])
    case Acquire(i) => s.(calls := s.calls[i := Acquired], tokens := s.tokens - 1)
    case Refuse(i) => s.(calls := s.calls[i := Away])
    case Raise(i) =>
      s.(calls := s.calls[i := Raised(s.active + 1)], active := s.active + 1, highest := Max(s.highest, s.active + 1))
    case NoteRaised(i) => s.(calls := s.calls[i := Calling], peak := Max(s.peak, s.calls[i].value))
    case Finish(i) => s.(calls := s.calls[i := Lowered(s.active - 1)], active := s.active - 1)
    case NoteLowered(i) => s.(calls := s.calls[i := Returning], peak := Max(s.peak, s.calls[i].value))
    case Return(i) => s.(calls := s.calls[i := Away], tokens := s.tokens + 1)
    case Close => s.(closed := true)
  }

  ghost predicate Run(s: Client, steps: seq<Step>, t: Client)
    decreases |steps|
  {
    if steps == [] then s == t
    else Enabled(s, steps[0]) && Run(Next(s, steps[0]), steps[1..], t)
  }

  ghost function Holds(p: Call): int { if p == Away || p == Open then 0 else 1 }

  ghost function Counted(p: Call): int { if p.Raised? || p == Calling then 1 else 0 }

  /** Tokens and holders make up the connections; the counter counts the calls inside it. */
  ghost predicate Balanced(s: Client) {
    s.tokens + Total(Holds, s.calls) == s.maxConnections && s.active == Total(Counted, s.calls)
  }

  /** Every value still to be compared was an active count, and the largest so far is noted or pending. */
  ghost predicate Noted(s: Client) {
    && s.active <= s.highest && s.peak <= s.highest
    && (forall i :: 0 <= i < |s.calls| && (s.calls[i].Raised? || s.calls[i].Lowered?) ==> s.calls[i].value <= s.highest)
    && (s.peak == s.highest || exists i :: 0 <= i < |s.calls| && s.calls[i] == Raised(s.highest))
  }

  ghost predicate Inv(s: Client) { Balanced(s) && Noted(s) && s.highest <= s.maxConnections }

  lemma InitInv(maxConnections: nat, calls: nat)
    ensures Inv(Init(maxConnections, calls))
  {
    TotalZero(Holds, Init(maxConnections, calls).calls);
    TotalZero(Counted, Init(maxConnections, calls).calls);
  }

  lemma ActiveWithinMax(s: Client)
    requires Balanced(s)
    ensures 0 <= s.active <= s.maxConnections
    ensures forall i :: 0 <= i < |s.calls| && s.calls[i] == Acquired ==> s.active < s.maxConnections
  {
    TotalNonNegative(Counted, s.calls);
    TotalMonotone(Counted, Holds, s.calls);
    forall i | 0 <= i < |s.calls| && s.calls[i] == Acquired ensures s.active < s.maxConnections {
      TotalMove(Counted, s.calls, i, Calling);
      TotalMove(Holds, s.calls, i, Calling);
      TotalMonotone(Counted, Holds, s.calls[i := Calling]);
    }
  }

  lemma StepKeepsBalance(s: Client, step: Step)
    requires Balanced(s) && Enabled(s, step)
    ensures Balanced(Next(s, step))
  {
    if step != Close {
      var p := Next(s, step).calls[step.i];
      TotalMove(Holds, s.calls, step.i, p);
      TotalMove(Counted, s.calls, step.i, p);
      assert Next(s, step).calls == s.calls[step.i := p];
    }
  }

  lemma RaiseKeepsNoted(s: Client, i: nat)
    requires Noted(s) && Enabled(s, Raise(i))
    ensures Noted(Next(s, Raise(i)))
  {
    var t := Next(s, Raise(i));
    if s.highest < s.active + 1 {
      assert t.calls[i] == Raised(t.highest);
    } else if s.peak != s.highest {
      var k :| 0 <= k < |s.calls| && s.calls[k] == Raised(s.highest);
      assert t.calls[k] == Raised(t.highest);
    }
  }

  lemma NoteKeepsNoted(s: Client, i: nat)
    requires Noted(s) && Enabled(s, NoteRaised(i))
    ensures Noted(Next(s, NoteRaised(i)))
  {
    var t := Next(s, NoteRaised(i));
    if t.peak != t.highest {
      var k :| 0 <= k < |s.calls| && s.calls[k] == Raised(s.highest);
      assert k != i && t.calls[k] == Raised(t.highest);
    }
  }

  lemma OtherKeepsNoted(s: Client, step: Step)
    requires Noted(s) && Enabled(s, step) && !step.Raise? && !step.NoteRaised?
    ensures Noted(Next(s, step))
  {
    var t := Next(s, step);
    if s.peak != s.highest {
      var k :| 0 <= k < |s.calls| && s.calls[k] == Raised(s.highest);
      assert t.calls[k] == Raised(t.highest);
    }
  }

  lemma {:induction false} RunKeepsInv(s: Client, steps: seq<Step>, t: Client)
    requires Inv(s) && Run(s, steps, t)
    ensures Inv(t) && t.maxConnections == s.maxConnections
    decreases |steps|
  {
    if steps != [] {
      var step := steps[0];
      StepKeepsBalance(s, step);
      ActiveWithinMax(Next(s, step));
      match step {
        case Raise(i) => RaiseKeepsNoted(s, i);
        case NoteRaised(i) => NoteKeepsNoted(s, i);
        case _ => OtherKeepsNoted(s, step);
      }
      RunKeepsInv(Next(s, step), steps[1..], t);
    }
  }

  /** In every interleaving: tokens plus holders are MaxConnections; a call that returns its token never
      blocks; and neither ActiveConnections nor PeakConnections exceeds MaxConnections. */
  lemma SlotsConserved(maxConnections: nat, calls: nat, steps: seq<Step>, t: Client, i: nat)
    requires Run(Init(maxConnections, calls), steps, t)
    ensures t.tokens + Total(Holds, t.calls) == maxConnections
    ensures At(t, i, Returning) ==> Enabled(t, Return(i))
    ensures 0 <= t.active <= maxConnections && t.peak <= maxConnections
  {
    InitInv(maxConnections, calls);
    RunKeepsInv(Init(maxConnections, calls), steps, t);
    ActiveWithinMax(t);
    if At(t, i, Returning) {
      assert forall k :: 0 <= k < |t.calls| ==> 0 <= Holds(t.calls[k]);
      TotalMember(Holds, t.calls, i);
    }
  }

  /** PeakConnections never overstates the largest ActiveConnections there has been, and equals it whenever
      no call is between raising the counter and comparing the peak. */
  lemma PeakIsExact(maxConnections: nat, calls: nat, steps: seq<Step>, t: Client)
    requires Run(Init(maxConnections, calls), steps, t)
    ensures t.peak <= t.highest
    ensures (forall i :: 0 <= i < |t.calls| ==> !t.calls[i].Raised?) ==> t.peak == t.highest
  {
    InitInv(maxConnections, calls);
    RunKeepsInv(Init(maxConnections, calls), steps, t);
  }

  /** `highest` is what it says: the largest active count over the states of the run. */
  lemma {:induction false} HighestIsLargest(s: Client, steps: seq<Step>, t: Client, k: nat, u: Client)
    requires Run(s, steps, t) && k <= |steps| && Run(s, steps[..k], u) && s.active <= s.highest
    ensures u.active <= t.highest
    decreases |steps|
  {
    if k == 0 {
      assert s == u;
      HighestGrows(s, steps, t);
    } else {
      assert steps[..k][0] == steps[0] && steps[..k][1..] == steps[1..][..k - 1];
      HighestIsLargest(Next(s, steps[0]), steps[1..], t, k - 1, u);
    }
  }

  lemma {:induction false} HighestGrows(s: Client, steps: seq<Step>, t: Client)
    requires Run(s, steps, t)
    ensures s.highest <= t.highest
    decreases |steps|
  {
    if steps != [] {
      HighestGrows(Next(s, steps[0]), steps[1..], t);
    }
  }

  /** It is the active count of some state of the run, so a peak equal to it was reached. */
  lemma HighestAttained(s: Client, steps: seq<Step>, t: Client) returns (k: nat, u: Client)
    requires Run(s, steps, t) && s.active == s.highest
    ensures k <= |steps| && Run(s, steps[..k], u) && u.active == t.highest
  {
    k, u := SetWhere(s, steps, t);
    if t.highest == s.highest {
      k, u := 0, s;
    }
  }

  /** Where along the run `highest` got its last value, unless it kept the first. */
  lemma {:induction false} SetWhere(s: Client, steps: seq<Step>, t: Client) returns (k: nat, u: Client)
    requires Run(s, steps, t)
    ensures k <= |steps| && Run(s, steps[..k], u) && (t.highest == s.highest || u.active == t.highest)
    decreases |steps|
  {
    k, u := 0, s;
    if steps != [] && t.highest != s.highest {
      var next := Next(s, steps[0]);
      k, u := SetWhere(next, steps[1..], t);
      if t.highest == next.highest {
        k, u := 0, next;
      }
      assert steps[..k + 1][0] == steps[0] && steps[..k + 1][1..] == steps[1..][..k];
      k := k + 1;
    }
  }

  /** The value a call compares the peak with is the counter just after its own add. */
  lemma AddReturns(s: Client, i: nat)
    ensures Enabled(s, Raise(i)) ==>
              var t := Next(s, Raise(i)); t.active == s.active + 1 && At(t, i, Raised(t.active))
    ensures Enabled(s, Finish(i)) ==>
              var t := Next(s, Finish(i)); t.active == s.active - 1 && At(t, i, Lowered(t.active))
  {
  }

  /** Once the client is closed no call enters: one that is outside stays outside, whatever the others do. */
  lemma {:induction false} ClosedKeepsOut(s: Client, steps: seq<Step>, t: Client, i: nat)
    requires s.closed && Run(s, steps, t) && At(s, i, Away)
    ensures t.closed && At(t, i, Away)
    decreases |steps|
  {
    if steps != [] {
      ClosedKeepsOut(Next(s, steps[0]), steps[1..], t, i);
    }
  }
}
