/** One-time codes: a code is accepted at most once, and only ever a later one. */
module AuthTotp {
  import opened Wrappers
  import opened AuthFailures

  const PERIOD := 30
  const SKEW := 1
  const DIGITS := 6

  type Secret = string

  datatype Enrolled = Enrolled(secret: Secret, lastUsedStep: nat)

  datatype Verdict = Accepted | Limited | CodeRequired | InvalidCode | Unavailable

  predicate WellFormed(code: string) {
    |code| == DIGITS && forall c <- code :: '0' <= c <= '9'
  }

  predicate IsSpace(c: char) { c == ' ' || c == '\t' || c == '\n' || c == '\r' || c == '\U{0b}' || c == '\U{0c}' }

  function Squeeze(code: string): string {
    if code == [] then [] else (if IsSpace(code[0]) then [] else [code[0]]) + Squeeze(code[1..])
  }

  lemma {:induction false} DigitsStay(code: string)
    requires forall i :: 0 <= i < |code| ==> '0' <= code[i] <= '9'
    ensures Squeeze(code) == code
  {
    if code == [] {
    } else {
      var rest := code[1..];
      assert forall i :: 0 <= i < |rest| ==> rest[i] == code[i + 1];
      DigitsStay(rest);
      assert !IsSpace(code[0]) && [code[0]] + rest == code;
    }
  }

  /** Each accepted step is later than the one before. */
  ghost predicate Increasing(steps: seq<nat>) {
    forall i, j :: 0 <= i < j < |steps| ==> steps[i] < steps[j]
  }

  /** The same, but for repetitions of step 0. */
  ghost predicate Rising(steps: seq<nat>) {
    forall i, j :: 0 <= i < j < |steps| ==> steps[i] < steps[j] || steps[i] == 0 == steps[j]
  }

  lemma RisingAppend(steps: seq<nat>, step: nat)
    requires Rising(steps) && (steps != [] && steps[|steps|-1] > 0 ==> step > steps[|steps|-1])
    ensures Rising(steps + [step])
  {
    var longer := steps + [step];
    forall i, j | 0 <= i < j < |longer| ensures longer[i] < longer[j] || longer[i] == 0 == longer[j] {
      if j == |steps| && i < |steps| - 1 { assert steps[i] < steps[|steps|-1] || steps[i] == 0 == steps[|steps|-1]; }
    }
  }

  /** Accepted steps increase exactly unless the first two are both 0. */
  lemma RisingIsIncreasing(steps: seq<nat>)
    requires Rising(steps)
    ensures Increasing(steps) <==> !(|steps| >= 2 && steps[1] == 0)
  {
    if |steps| >= 2 && steps[1] > 0 {
      forall i, j | 0 <= i < j < |steps| ensures steps[i] < steps[j] {
        assert j > 1 ==> steps[1] < steps[j];
      }
    } else if |steps| >= 2 {
      assert !(steps[0] < steps[1]);
    }
  }

  /** The stored guard; a last step of 0 is taken for none. */
  predicate Later(e: Enrolled, step: nat) {
    !(e.lastUsedStep > 0 && step <= e.lastUsedStep)
  }

  class Totp {
    // the code a secret gives at a step (RFC 4226)
    const hotp: (Secret, nat) -> string
    const fails: FailureRecords
    // whether the store always answers
    const reliable: bool
    // stored
    var config: Option<Enrolled>
    // every step accepted for the enrolled secret, the enrolling one first
    ghost var accepted: seq<nat>

    ghost predicate Valid()
      reads this, fails
    {
      && fails.Valid() && Rising(accepted)
      && (config.None? ==> accepted == [])
      && (config.Some? ==> accepted != [] && accepted[|accepted| - 1] == config.value.lastUsedStep)
    }

    constructor (hotp: (Secret, nat) -> string, fails: FailureRecords, reliable: bool)
      requires fails.Valid()
      ensures Valid() && config == None && this.hotp == hotp && this.fails == fails && this.reliable == reliable
    {
      this.hotp, this.fails, this.reliable, config, accepted := hotp, fails, reliable, None, [];
    }

    /** The current step first, then the next, then the one before. */
    method MatchAt(secret: Secret, code: string, now: nat) returns (step: Option<nat>)
      ensures step.Some? ==>
                hotp(secret, step.value) == code && now / PERIOD - SKEW <= step.value <= now / PERIOD + SKEW
      ensures step.None? ==>
                forall s: nat :: now / PERIOD - SKEW <= s <= now / PERIOD + SKEW ==> hotp(secret, s) != code
    {
      var counter: nat := now / PERIOD;
      var counters: seq<nat> := [counter];
      for offset := 1 to SKEW + 1
        invariant counters == if offset == 1 then [counter]
                              else if counter >= 1 then [counter, counter + 1, counter - 1] else [counter, counter + 1]
      {
        counters := counters + [counter + offset];
        if counter >= offset { counters := counters + [counter - offset]; }
      }
      for i := 0 to |counters|
        invariant forall k :: 0 <= k < i ==> hotp(secret, counters[k]) != code
      {
        if hotp(secret, counters[i]) == code { return Some(counters[i]); }
      }
      forall s: nat | now / PERIOD - SKEW <= s <= now / PERIOD + SKEW ensures hotp(secret, s) != code {
        assert s in counters;
      }
      return None;
    }

    /** A wrong code counts as a failure of the client. */
    method Invalid(client: string, now: int) returns (v: Verdict)
      requires Valid() && now >= fails.clock
      modifies fails
      ensures Valid() && fails.clock == now && (v == Limited || v == InvalidCode)
      ensures v == Limited <==> old(fails.Blocked(client, now))
    {
      var blocked := fails.Record(client, now);
      v := if blocked then Limited else InvalidCode;
    }

    /** A step whose code was shown, within the skew. */
    predicate Shows(secret: Secret, raw: string, now: nat, step: nat) {
      && WellFormed(Squeeze(raw)) && hotp(secret, step) == Squeeze(raw)
      && now / PERIOD - SKEW <= step <= now / PERIOD + SKEW
    }

    /** The code shows nothing, or a step that is used up. */
    ghost predicate Refusable(e: Enrolled, raw: string, now: nat) {
      (forall s: nat :: !Shows(e.secret, raw, now, s))
      || exists s: nat :: Shows(e.secret, raw, now, s) && s <= e.lastUsedStep && e.lastUsedStep > 0
    }

    /** The step is taken: stored, and part of the run of accepted ones. */
    ghost method Take(step: nat)
      requires accepted != []
      modifies `accepted
      ensures accepted == old(accepted) + [step]
    {
      accepted := accepted + [step];
    }

    /** Checks a code against the stored secret.  What is accepted is stored first. */
    method Verify(client: string, raw: string, now: nat) returns (v: Verdict, ghost step: nat)
      requires Valid() && now >= fails.clock
      modifies this, fails
      ensures Valid() && fails.clock == now
      ensures v.Limited? <==> old(fails.Blocked(client, now))
      ensures v.CodeRequired? <==> !old(fails.Blocked(client, now)) && Squeeze(raw) == ""
      ensures reliable && v.Unavailable? ==> config.None?
      ensures v.Accepted? ==> && old(config).Some? && config == Some(Enrolled(old(config).value.secret, step))
                              && Shows(config.value.secret, raw, now, step) && accepted == old(accepted) + [step]
                              && (old(config).value.lastUsedStep > 0 ==> step > old(config).value.lastUsedStep)
      ensures !v.Accepted? ==> config == old(config) && accepted == old(accepted)
      ensures v.InvalidCode? && WellFormed(Squeeze(raw)) ==> config.Some? && Refusable(config.value, raw, now)
    {
      step := 0;
      var blocked := fails.Limited(client, now);
      if blocked { return Limited, 0; }
      var code := Squeeze(raw);
      if code == "" { return CodeRequired, 0; }
      if WellFormed(code) {
        v, step := VerifyCode(client, raw, now);
      } else {
        v := Invalid(client, now);
      }
    }

    method VerifyCode(client: string, raw: string, now: nat) returns (v: Verdict, ghost step: nat)
      requires Valid() && now >= fails.clock && WellFormed(Squeeze(raw))
      modifies this, fails
      ensures Valid() && fails.clock == now
      ensures (v.Limited? <==> old(fails.Blocked(client, now))) && !v.CodeRequired?
      ensures reliable && v.Unavailable? ==> config.None?
      ensures v.Accepted? ==> && old(config).Some? && config == Some(Enrolled(old(config).value.secret, step))
                              && Shows(config.value.secret, raw, now, step) && accepted == old(accepted) + [step]
                              && (old(config).value.lastUsedStep > 0 ==> step > old(config).value.lastUsedStep)
      ensures !v.Accepted? ==> config == old(config) && accepted == old(accepted)
      ensures v.InvalidCode? ==> config.Some? && Refusable(config.value, raw, now)
    {
      step := 0;
      // others may have failed while this request waited its turn
      var blocked := fails.Limited(client, now);
      if blocked { return Limited, 0; }
      var readable: bool := *;
      if (!reliable && !readable) || config.None? { return Unavailable, 0; }
      var matched := MatchAt(config.value.secret, Squeeze(raw), now);
      if matched.None? || !Later(config.value, matched.value) {
        assert matched.Some? ==> Shows(config.value.secret, raw, now, matched.value);
        v := Invalid(client, now);
      } else {
        var saved: bool := *;
        v := Unavailable;
        if reliable || saved {
          step := matched.value;
          RisingAppend(accepted, step);
          config := Some(config.value.(lastUsedStep := matched.value));
          Take(step);
          fails.Clear(client);
          v := Accepted;
        }
      }
    }

    /** Confirming a new secret: the confirming code is its first accepted step. */
    method Enroll(client: string, secret: Secret, raw: string, now: nat) returns (v: Verdict, ghost step: nat)
      requires Valid() && now >= fails.clock
      modifies this, fails
      ensures Valid() && (v.Accepted? || v.Unavailable? || fails.clock == now || v.CodeRequired?)
      ensures v.Accepted? ==>
                config == Some(Enrolled(secret, step)) && accepted == [step] && Shows(secret, raw, now, step)
      ensures v.Accepted? ==> client !in fails.entries && fails.clock == old(fails.clock)
      ensures !v.Accepted? ==> config == old(config) && accepted == old(accepted)
      ensures reliable && !v.Accepted? ==> forall s: nat :: !Shows(secret, raw, now, s)
    {
      step := 0;
      var code := Squeeze(raw);
      if code == "" { return CodeRequired, 0; }
      var matched := if WellFormed(code) then Some(0) else None;
      if WellFormed(code) { matched := MatchAt(secret, code, now); }
      if matched.None? {
        v := Invalid(client, now);
      } else {
        var saved: bool := *;
        v := Unavailable;
        if reliable || saved {
          step := matched.value;
          config, accepted := Some(Enrolled(secret, matched.value)), [step];
          fails.Clear(client);
          v := Accepted;
        }
      }
    }

    /** Disabling forgets the secret and its steps. */
    method Disable()
      requires Valid()
      modifies `config, `accepted
      ensures Valid() && config.None? && accepted == []
    {
      config, accepted := None, [];
    }

    /** One accepted code after another: the steps keep increasing unless the first two are both 0,
        since a stored last step of 0 counts as none.  A minute after the epoch that is over. */
    method VerifyNext(client: string, raw: string, now: nat) returns (v: Verdict)
      requires Valid() && now >= fails.clock
      modifies this, fails
      ensures Valid() && fails.clock == now && old(accepted) <= accepted
      ensures |accepted| == |old(accepted)| + if v.Accepted? then 1 else 0
      ensures Increasing(accepted) <==> !(|accepted| >= 2 && accepted[1] == 0)
      ensures Increasing(accepted)
              <==> old(Increasing(accepted)) && !(|accepted| == 2 && v.Accepted? && accepted[1] == 0)
      ensures now >= 2 * PERIOD && old(Increasing(accepted)) ==> Increasing(accepted)
    {
      ghost var step;
      ghost var was := accepted;
      RisingIsIncreasing(accepted);
      v, step := Verify(client, raw, now);
      RisingIsIncreasing(accepted);
    }
  }

  function ZeroCode(secret: Secret, step: nat): string {
    if step == 0 then "000000" else "111111"
  }

  lemma ZeroIsShown(totp: Totp, secret: Secret)
    requires totp.hotp == ZeroCode
    ensures totp.Shows(secret, "000000", 0, 0) && Squeeze("000000") != ""
    ensures forall s: nat :: totp.Shows(secret, "000000", 0, s) ==> s == 0
  {
    DigitsStay("000000");
    assert "000000"[0] != "111111"[0];
  }

  /** Right after the epoch the code that confirms the secret is accepted once more. */
  method StepZeroPassesTwice(client: string) returns (totp: Totp, first: Verdict, second: Verdict)
    ensures fresh(totp) && first == Accepted && second == Accepted && totp.accepted == [0, 0]
    ensures !Increasing(totp.accepted)
  {
    hide Squeeze, WellFormed, ZeroCode, Totp.Shows, FailureRecords.Valid;
    var fails := new FailureRecords(300);
    totp := new Totp(ZeroCode, fails, true);
    ZeroIsShown(totp, "secret");
    ghost var one, two;
    first, one := totp.Enroll(client, "secret", "000000", 0);
    second, two := totp.Verify(client, "000000", 0);
    assert totp.accepted[0] == totp.accepted[1];
  }
}
