/**
 * Validation of an assignment's late-submission policy
 * (`validate_assignment_settings`): an ordered list of (period, scaling)
 * pairs describing a step function from lateness to retained score.
 *
 * Periods are ISO 8601 durations (section 4.4.3.2 of ISO 8601:2004); here a
 * period is its already-parsed length in seconds, `None` when it does not
 * parse. A scaling is `None` when the JSON value is not a float.
 */
module LateSubmission {
  import opened Common

  datatype LatePeriod = LatePeriod(period: Option<int>, scaling: Option<real>)

  datatype SettingsError =
    | InvalidSettings
    | PeriodsNotIncreasing
    | ScalingOutOfRange
    | ScalingNotDecreasing
  {
    /** The `reason` of the HTTP 400 error raised for this failure. */
    function Reason(): string {
      match this
      case InvalidSettings => "Invalid settings!"
      case PeriodsNotIncreasing => "Period lengths are not increasing!)"
      case ScalingOutOfRange => "Score scaling has to be between 0.0 and 1.0 exclusive!"
      case ScalingNotDecreasing => "Score scaling is not decreasing!"
    }
  }

  datatype AssignmentSettings = AssignmentSettings(
    maxSubmissions: Option<int>,
    lateSubmission: Option<seq<LatePeriod>>,
    autogradeType: string)

  /** `settings.late_submission or []`: an absent list validates like an empty one. */
  function Policy(s: AssignmentSettings): seq<LatePeriod> {
    if s.lateSubmission.Some? then s.lateSubmission.value else []
  }

  /** The entry parses to a non-negative duration and carries a float scaling. */
  predicate Parsed(e: LatePeriod) {
    e.period.Some? && e.period.value >= 0 && e.scaling.Some?
  }

  /**
   * The check of one entry against the previous accepted period and scaling,
   * in the order `validate_assignment_settings` runs them.
   */
  function EntryError(prevPeriod: int, prevScaling: real, e: LatePeriod): (r: Option<SettingsError>)
    ensures r.None? <==> Parsed(e) && prevPeriod < e.period.value
                         && 0.0 < e.scaling.value < 1.0 && e.scaling.value < prevScaling
    ensures !Parsed(e) ==> r == Some(InvalidSettings)
    ensures Parsed(e) && e.period.value <= prevPeriod ==> r == Some(PeriodsNotIncreasing)
    ensures Parsed(e) && prevPeriod < e.period.value && !(0.0 < e.scaling.value < 1.0) ==>
              r == Some(ScalingOutOfRange)
    ensures (Parsed(e) && prevPeriod < e.period.value && 0.0 < e.scaling.value < 1.0
             && e.scaling.value >= prevScaling) ==> r == Some(ScalingNotDecreasing)
  {
    if !Parsed(e) then Some(InvalidSettings)
    else if e.period.value <= prevPeriod then Some(PeriodsNotIncreasing)
    else if e.scaling.value <= 0.0 || e.scaling.value >= 1.0 then Some(ScalingOutOfRange)
    else if e.scaling.value >= prevScaling then Some(ScalingNotDecreasing)
    else None
  }

  /**
   * A well-formed policy, stated over the whole list: every entry parses,
   * periods strictly increase starting above zero, every scaling lies in
   * (0, 1) and scalings strictly decrease.
   */
  predicate WellFormedPolicy(p: seq<LatePeriod>) {
    && (forall i :: 0 <= i < |p| ==> Parsed(p[i]))
    && (forall i :: 0 <= i < |p| ==> 0.0 < p[i].scaling.value < 1.0)
    && (|p| > 0 ==> p[0].period.value > 0)
    && (forall i :: 0 < i < |p| ==> p[i - 1].period.value < p[i].period.value)
    && (forall i :: 0 < i < |p| ==> p[i].scaling.value < p[i - 1].scaling.value)
  }

  /** The period and scaling entry `i` is compared against: the zero duration and 1.0 for the first. */
  function Previous(p: seq<LatePeriod>, i: nat): (int, real)
    requires i <= |p|
    requires i == 0 || Parsed(p[i - 1])
  {
    if i == 0 then (0, 1.0) else (p[i - 1].period.value, p[i - 1].scaling.value)
  }

  /** Entry `i` is the first to fail: the entries before it form a well-formed policy and its own check fails. */
  predicate FailsFirstAt(p: seq<LatePeriod>, i: int) {
    && 0 <= i < |p|
    && WellFormedPolicy(p[..i])
    && (i == 0 || Parsed(p[i - 1]))
    && EntryError(Previous(p, i).0, Previous(p, i).1, p[i]).Some?
  }

  /** A prefix of a well-formed policy is well formed. */
  lemma PrefixWellFormed(p: seq<LatePeriod>, k: nat)
    requires WellFormedPolicy(p) && k <= |p|
    ensures WellFormedPolicy(p[..k])
  {
    var q := p[..k];
    assert forall j :: 0 <= j < |q| ==> q[j] == p[j];
  }

  /** At most one entry is the first to fail. */
  lemma FirstFailureUnique(p: seq<LatePeriod>, i: int, j: int)
    requires FailsFirstAt(p, i) && FailsFirstAt(p, j)
    ensures i == j
  {
    if i < j {
      PassedBefore(p, i, j);
    } else if j < i {
      PassedBefore(p, j, i);
    }
  }

  /** Every entry inside a well-formed prefix passes its check. */
  lemma PassedBefore(p: seq<LatePeriod>, i: int, j: int)
    requires 0 <= i < j <= |p| && WellFormedPolicy(p[..j])
    ensures EntryError(Previous(p, i).0, Previous(p, i).1, p[i]).None?
  {
    var q := p[..j];
    AcceptedEntry(q, i);
    assert q[i] == p[i];
    assert i > 0 ==> q[i - 1] == p[i - 1];
  }

  /** A policy whose prefix is not well formed is not well formed either. */
  lemma BadPrefixBadPolicy(p: seq<LatePeriod>, k: nat)
    requires k <= |p| && !WellFormedPolicy(p[..k])
    ensures !WellFormedPolicy(p)
  {
    if WellFormedPolicy(p) {
      PrefixWellFormed(p, k);
    }
  }

  /** The first failure of a prefix is the first failure of the whole policy, with the same error. */
  lemma FailureLifts(p: seq<LatePeriod>, k: nat, i: int)
    requires k <= |p| && FailsFirstAt(p[..k], i)
    ensures FailsFirstAt(p, i)
    ensures EntryError(Previous(p[..k], i).0, Previous(p[..k], i).1, p[..k][i])
            == EntryError(Previous(p, i).0, Previous(p, i).1, p[i])
  {
    var q := p[..k];
    assert q[..i] == p[..i];
    assert q[i] == p[i];
    assert i > 0 ==> q[i - 1] == p[i - 1];
  }

  /** Once all but the last entry form a well-formed policy, the last entry's check decides. */
  lemma LastEntryDecides(p: seq<LatePeriod>)
    requires |p| > 0 && WellFormedPolicy(p[..|p| - 1])
    ensures var n := |p| - 1;
            EntryError(Previous(p, n).0, Previous(p, n).1, p[n]).None? <==> WellFormedPolicy(p)
  {
    var n := |p| - 1;
    if EntryError(Previous(p, n).0, Previous(p, n).1, p[n]).None? {
      ExtendWellFormed(p, n);
      assert p[..n + 1] == p;
    }
    if WellFormedPolicy(p) {
      AcceptedEntry(p, n);
    }
  }

  /**
   * The error the validation raises for a policy, defined entry by entry:
   * none for a well-formed policy, otherwise the error of the first entry
   * that fails its check against its predecessor.
   */
  function PolicyError(p: seq<LatePeriod>): (r: Option<SettingsError>)
    ensures r.None? <==> WellFormedPolicy(p)
    ensures r.Some? ==> exists i :: FailsFirstAt(p, i) && r == EntryError(Previous(p, i).0, Previous(p, i).1, p[i])
    decreases |p|
  {
    if |p| == 0 then None
    else
      var n := |p| - 1;
      var e := PolicyError(p[..n]);
      if e.Some? then
        BadPrefixBadPolicy(p, n);
        assert exists i :: FailsFirstAt(p, i) && e == EntryError(Previous(p, i).0, Previous(p, i).1, p[i]) by {
          var i :| FailsFirstAt(p[..n], i) && e == EntryError(Previous(p[..n], i).0, Previous(p[..n], i).1, p[..n][i]);
          FailureLifts(p, n, i);
        }
        e
      else
        LastEntryDecides(p);
        EntryError(Previous(p, n).0, Previous(p, n).1, p[n])
  }

  /** `validate_assignment_settings` on the late-submission list: the first failing entry decides the error. */
  method ValidateLateSubmission(p: seq<LatePeriod>) returns (err: Option<SettingsError>)
    ensures err.None? <==> WellFormedPolicy(p)
    ensures err.Some? ==> exists i :: 0 <= i < |p| && WellFormedPolicy(p[..i])
                            && err == EntryError(Previous(p, i).0, Previous(p, i).1, p[i])
    ensures err == PolicyError(p)
  {
    var currentPeriod := 0;
    var currScaling := 1.0;
    var i := 0;
    while i < |p|
      invariant 0 <= i <= |p|
      invariant WellFormedPolicy(p[..i])
      invariant (currentPeriod, currScaling) == Previous(p, i)
    {
      var e := EntryError(currentPeriod, currScaling, p[i]);
      if e.Some? {
        if WellFormedPolicy(p) {
          AcceptedEntry(p, i);
        }
        assert FailsFirstAt(p, i);
        var j :| FailsFirstAt(p, j) && PolicyError(p) == EntryError(Previous(p, j).0, Previous(p, j).1, p[j]);
        FirstFailureUnique(p, i, j);
        return e;
      }
      ExtendWellFormed(p, i);
      currentPeriod := p[i].period.value;
      currScaling := p[i].scaling.value;
      i := i + 1;
    }
    assert p[..i] == p;
    return None;
  }

  /** An entry that passes its check extends a well-formed prefix by one. */
  lemma ExtendWellFormed(p: seq<LatePeriod>, i: nat)
    requires i < |p| && WellFormedPolicy(p[..i])
    requires EntryError(Previous(p, i).0, Previous(p, i).1, p[i]).None?
    ensures WellFormedPolicy(p[..i + 1])
  {
    var q := p[..i + 1];
    assert forall k :: 0 <= k < |q| ==> q[k] == p[k];
  }

  /** In a well-formed policy every entry passes its check against its predecessor. */
  lemma AcceptedEntry(p: seq<LatePeriod>, i: nat)
    requires WellFormedPolicy(p) && i < |p|
    ensures EntryError(Previous(p, i).0, Previous(p, i).1, p[i]).None?
  {
  }

  /** Validation of optional settings: `None` settings are accepted without looking further. */
  method ValidateSettings(settings: Option<AssignmentSettings>) returns (err: Option<SettingsError>)
    ensures settings.None? ==> err.None?
    ensures settings.Some? ==> (err.None? <==> WellFormedPolicy(Policy(settings.value)))
    ensures settings.Some? ==> err == PolicyError(Policy(settings.value))
  {
    if settings.None? {
      return None;
    }
    err := ValidateLateSubmission(Policy(settings.value));
  }

  /** A zero-length first period is rejected as not increasing, whatever its scaling. */
  lemma ZeroFirstPeriodRejected(p: seq<LatePeriod>)
    requires |p| > 0 && p[0].period == Some(0) && p[0].scaling.Some?
    ensures !WellFormedPolicy(p)
    ensures EntryError(0, 1.0, p[0]) == Some(PeriodsNotIncreasing)
  {
  }

  /** A well-formed policy is ordered as a whole: every later period is longer, every later scaling smaller. */
  lemma {:induction false} WellFormedIsMonotone(p: seq<LatePeriod>, i: int, j: int)
    requires WellFormedPolicy(p)
    requires 0 <= i < j < |p|
    ensures p[i].period.value < p[j].period.value
    ensures p[j].scaling.value < p[i].scaling.value
    decreases j - i
  {
    if i + 1 < j {
      WellFormedIsMonotone(p, i, j - 1);
    }
  }
}
