/** Stitching several upstream responses into one body under Range and If-Range. */
module StreamResume {
  import opened Wrappers
  import opened HttpRange

  type Bytes = seq<bv8>

  const MAX_ATTEMPTS := 2
  const DRAIN_LIMIT := 256 * 1024
  const STATUS_OK := 200
  const STATUS_PARTIAL := 206

  datatype Ending = EndOfFile | UnexpectedEOF | ReadFailed

  datatype Error =
    | ReadError(ending: Ending) | WriteFailed | ShortWrite
    | AttemptsExhausted | RequestFailed
    | UnexpectedStatus | Decoded | Multipart | ValidatorChanged | MissingRange | RangeMismatch | LengthMismatch

  /** The response headers a resume looks at; `decoded` means transparently decompressed or still encoded. */
  datatype Head = Head(
    status: nat, decoded: bool, multipart: bool, etag: string, lastModified: string, modifiedBeforeDate: bool,
    contentRange: string, contentLength: int, media: bool, acceptsBytes: bool)

  /** A strong entity tag, or a modification date old enough to be strong (section 8.8.2.2 of RFC 9110). */
  datatype Validator = ETag(tag: string) | LastModified(date: string)

  datatype Plan = Plan(whole: bool, first: nat, last: nat, size: nat, validator: Validator)

  predicate WeakTag(tag: string) {
    |tag| >= 2 && (tag[0] == 'W' || tag[0] == 'w') && tag[1] == '/'
  }

  function NewValidator(h: Head): Option<Validator> {
    if h.etag != "" then if WeakTag(h.etag) then None else Some(ETag(h.etag))
    else if h.lastModified != "" && h.modifiedBeforeDate then Some(LastModified(h.lastModified)) else None
  }

  predicate Matches(v: Validator, h: Head) {
    match v
    case ETag(tag) => h.etag == tag
    case LastModified(date) => h.lastModified == date
  }

  /** What the client asked for, as far as planning depends on it. */
  datatype Asked = NoRange | FromZero | SingleRange | OtherRange

  function NewPlan(h: Head, asked: Asked): Option<Plan> {
    var v := NewValidator(h);
    if h.decoded || !h.media || !h.acceptsBytes || v.None? then None
    else if h.status == STATUS_OK then
      if (asked == NoRange || asked == FromZero) && h.contentLength > 0
      then Some(Plan(true, 0, h.contentLength - 1, h.contentLength, v.value)) else None
    else if h.status == STATUS_PARTIAL then
      var r := ParseContentRange(h.contentRange);
      if (asked == SingleRange || asked == FromZero) && !h.multipart && r.Some? && r.value.0 <= r.value.1 < r.value.2
      then Some(Plan(false, r.value.0, r.value.1, r.value.2, v.value)) else None
    else None
  }

  predicate ValidPlan(p: Plan) {
    p.first <= p.last < p.size && (p.whole ==> p.first == 0 && p.last == p.size - 1)
  }

  lemma PlansAreValid(h: Head, asked: Asked)
    ensures NewPlan(h, asked).Some? ==>
              ValidPlan(NewPlan(h, asked).value) && Matches(NewPlan(h, asked).value.validator, h)
  {
    hide ParseContentRange;
  }

  function Length(p: Plan): nat
    requires ValidPlan(p)
  {
    p.last - p.first + 1
  }

  function Header(p: Plan, next: nat): string {
    ResumeRange(p.whole, next, p.last)
  }

  /** Why a response to a resume request is refused. */
  function Refusal(h: Head, p: Plan, next: nat): Option<Error> {
    if h.status != STATUS_PARTIAL then Some(UnexpectedStatus)
    else if h.decoded then Some(Decoded)
    else if h.multipart then Some(Multipart)
    else if !Matches(p.validator, h) then Some(ValidatorChanged)
    else if ParseContentRange(h.contentRange).None? then Some(MissingRange)
    else if ParseContentRange(h.contentRange).value != (next, p.last, p.size) then Some(RangeMismatch)
    else if h.contentLength > 0 && h.contentLength != p.last - next + 1 then Some(LengthMismatch)
    else None
  }

  /** The bytes of a body agree with a stretch of a resource from a position on. */
  predicate AgreesFrom(body: Bytes, resource: Bytes, from: nat) {
    forall k :: 0 <= k < |body| && from + k < |resource| ==> body[k] == resource[from + k]
  }

  /** Where in the resource a response claims to start, and how long it says the whole is. */
  function Claims(h: Head): Option<(nat, nat)> {
    if h.status == STATUS_OK && h.contentLength > 0 then Some((0, h.contentLength))
    else if h.status == STATUS_PARTIAL && !h.multipart && ParseContentRange(h.contentRange).Some? then
      var range := ParseContentRange(h.contentRange).value;
      Some((range.0, range.2))
    else None
  }

  /** What strong validators and Content-Range promise: a response with the plan's validator carries
      bytes of that one version, starting where it says.  It may break off anywhere. */
  predicate Honest(h: Head, body: Bytes, p: Plan, resource: Bytes) {
    !h.decoded && Matches(p.validator, h) && Claims(h).Some? && Claims(h).value.1 == |resource|
    ==> AgreesFrom(body, resource, Claims(h).value.0)
  }

  /** A planned response starts where the plan does. */
  lemma PlannedAgrees(h: Head, asked: Asked, body: Bytes, resource: Bytes)
    requires NewPlan(h, asked).Some? && |resource| == NewPlan(h, asked).value.size
    requires Honest(h, body, NewPlan(h, asked).value, resource)
    ensures AgreesFrom(body, resource, NewPlan(h, asked).value.first)
  {
    hide ParseContentRange, AgreesFrom;
    PlansAreValid(h, asked);
  }

  /** An accepted resume response carries the remainder. */
  lemma AcceptedAgrees(h: Head, p: Plan, next: nat, body: Bytes, resource: Bytes)
    requires |resource| == p.size && Refusal(h, p, next).None? && Honest(h, body, p, resource)
    ensures AgreesFrom(body, resource, next)
  {
    hide ParseContentRange, AgreesFrom;
  }

  /** One upstream response: the bytes it will deliver, how it ends, and whether it was closed. */
  class Response {
    const head: Head
    const body: Bytes
    const ending: Ending
    var pos: nat
    var closed: bool

    constructor (head: Head, body: Bytes, ending: Ending)
      ensures this.head == head && this.body == body && this.ending == ending && pos == 0 && !closed
    {
      this.head, this.body, this.ending, pos, closed := head, body, ending, 0, false;
    }

    predicate Open()
      reads this
    {
      !closed && pos <= |body|
    }

    /** At most `max` bytes; the ending comes with or after the last of them. */
    method Read(max: nat) returns (chunk: Bytes, ending: Option<Ending>)
      requires Open() && max > 0
      modifies `pos
      ensures Open() && old(pos) <= pos && chunk == body[old(pos)..pos] && |chunk| <= max
      ensures ending.None? ==> chunk != []
      ensures ending.Some? ==> ending.value == this.ending && pos == |body|
    {
      var n: nat :| n <= max && pos + n <= |body| && (n > 0 || pos == |body|);
      chunk, pos := body[pos..pos + n], pos + n;
      var now: bool := *;
      ending := if pos == |body| && (now || n == 0) then Some(this.ending) else None;
    }

    method Close()
      modifies `closed
      ensures closed
    {
      closed := true;
    }

    /** Discards a bounded part of what is left, then closes. */
    method DrainAndClose()
      requires Open()
      modifies `pos, `closed
      ensures closed && old(pos) <= pos <= |body| && pos <= old(pos) + DRAIN_LIMIT
    {
      pos := if |body| - pos <= DRAIN_LIMIT then |body| else pos + DRAIN_LIMIT;
      Close();
    }
  }

  /** The connection to the client: a write may be short, and may fail. */
  class Client {
    var written: Bytes

    constructor ()
      ensures written == []
    {
      written := [];
    }

    method Write(chunk: Bytes) returns (n: nat, failed: bool)
      modifies this
      ensures n <= |chunk| && written == old(written) + chunk[..n]
    {
      failed := *;
      n :| n <= |chunk|;
      written := written + chunk[..n];
    }
  }

  class Proxy {
    const client: Client
    const plan: Plan
    // the one version of the resource the plan's validator names; only the origin has it
    const resource: Bytes
    // every upstream response this copy has had, refused ones included, in order
    ghost var used: seq<Response>

    constructor (plan: Plan, resource: Bytes, client: Client)
      requires ValidPlan(plan) && |resource| == plan.size
      ensures this.plan == plan && this.resource == resource && this.client == client && used == []
    {
      this.plan, this.resource, this.client, this.used := plan, resource, client, [];
    }

    /** The part of the resource the client was promised. */
    ghost function Promised(): Bytes
      requires ValidPlan(plan) && |resource| == plan.size
    {
      resource[plan.first..plan.last + 1]
    }

    /** A body that agrees with the resource from where the client stands extends what it has. */
    lemma Continues(body: Bytes, sent: nat, n: nat)
      requires ValidPlan(plan) && |resource| == plan.size
      requires AgreesFrom(body, resource, plan.first + sent) && n <= |body| && sent + n <= Length(plan)
      ensures Promised()[..sent + n] == Promised()[..sent] + body[..n]
    {
    }

    ghost predicate AllClosed(n: nat)
      requires n <= |used|
      reads this, used
    {
      forall k :: 0 <= k < n ==> used[k].closed
    }

    /** One upstream fetch; only honest servers are assumed. */
    method Fetch(range: string) returns (r: Option<Response>)
      modifies `used
      ensures r.Some? ==> fresh(r.value) && r.value.Open() && r.value.pos == 0
      ensures used == if r.Some? then old(used) + [r.value] else old(used)
      ensures r.Some? ==> Honest(r.value.head, r.value.body, plan, resource)
    {
      var head: Head, body: Bytes, ending: Ending := *, *, *;
      var answered: bool := *;
      if !answered || !Honest(head, body, plan, resource) { return None; }
      var fetched := new Response(head, body, ending);
      used := used + [fetched];
      r := Some(fetched);
    }

    /** Asks for the remainder and accepts only the remainder. */
    method Resume(next: nat) returns (r: Option<Response>, err: Error)
      requires ValidPlan(plan) && |resource| == plan.size
      modifies `used
      ensures old(used) <= used && |used| <= |old(used)| + 1
      ensures forall k :: |old(used)| <= k < |used| ==> fresh(used[k])
      ensures r.Some? ==> used == old(used) + [r.value] && r.value.Open() && r.value.pos == 0
      ensures r.None? ==> forall k :: |old(used)| <= k < |used| ==> used[k].closed
      ensures r.Some? ==> Refusal(r.value.head, plan, next).None? && AgreesFrom(r.value.body, resource, next)
    {
      err := RequestFailed;
      r := Fetch(Header(plan, next));
      if r.Some? && Refusal(r.value.head, plan, next).Some? {
        err := Refusal(r.value.head, plan, next).value;
        r.value.Close();
        r := None;
      } else if r.Some? {
        AcceptedAgrees(r.value.head, plan, next, r.value.body, resource);
      }
    }

    /** The response in use is the last one, and every other one is closed. */
    ghost predicate InUse(current: Response)
      reads this, used
    {
      used != [] && current == used[|used|-1] && AllClosed(|used| - 1)
      && forall k :: 0 <= k < |used| - 1 ==> used[k] != current
    }

    /** Replaces a response that broke off by one that continues it, or ends with all closed. */
    method Renew(current: Response, next: nat) returns (r: Option<Response>, err: Error)
      requires ValidPlan(plan) && |resource| == plan.size && InUse(current) && current.Open()
      modifies `used, current
      ensures old(used) <= used && |used| <= |old(used)| + 1
      ensures forall k :: |old(used)| <= k < |used| ==> fresh(used[k])
      ensures r.None? ==> AllClosed(|used|)
      ensures r.Some? ==> InUse(r.value) && used == old(used) + [r.value] && r.value.Open() && r.value.pos == 0
      ensures r.Some? ==> AgreesFrom(r.value.body, resource, next)
    {
      hide Honest, Refusal, AgreesFrom;
      r, err := Resume(next);
      assert forall k :: 0 <= k < |old(used)| ==> used[k] == old(used)[k];
      assert r.Some? ==> fresh(used[|used| - 1]);
      current.DrainAndClose();
    }

    /** Copies from one response until it ends, the limit is reached or the client fails. */
    method CopyChunk(from: Response, limit: nat) returns (n: nat, ending: Ending, failure: Option<Error>)
      requires from.Open() && limit > 0
      modifies from`pos, client
      ensures from.Open() && n <= limit && old(from.pos) + n <= |from.body|
      ensures client.written == old(client.written) + from.body[old(from.pos)..old(from.pos) + n]
      ensures failure.None? && n < limit ==> ending == from.ending
      ensures failure.Some? ==> failure.value.WriteFailed? || failure.value.ShortWrite?
    {
      n, ending, failure := 0, EndOfFile, None;
      while n < limit
        invariant from.Open() && n <= limit && from.pos == old(from.pos) + n
        invariant client.written == old(client.written) + from.body[old(from.pos)..from.pos]
        decreases limit - n
      {
        var chunk, end := from.Read(limit - n);
        var wrote, failed := client.Write(chunk);
        n := n + wrote;
        assert from.body[old(from.pos)..old(from.pos) + n]
            == from.body[old(from.pos)..old(from.pos) + n - wrote] + chunk[..wrote];
        if failed { return n, ending, Some(WriteFailed); }
        if wrote != |chunk| { return n, ending, Some(ShortWrite); }
        if end.Some? { return n, end.value, None; }
      }
    }

    /** The whole copy: at most two resumes, every response closed, one version throughout. */
    method CopyBody(first: Response, asked: Asked) returns (err: Option<Error>)
      requires NewPlan(first.head, asked) == Some(plan) && |resource| == plan.size && ValidPlan(plan)
      requires Honest(first.head, first.body, plan, resource)
      requires used == [] && first.Open() && first.pos == 0
      modifies this, client, first
      ensures exists sent: nat :: sent <= Length(plan) && client.written == old(client.written) + Promised()[..sent]
                                  && (err.None? ==> sent == Length(plan))
      ensures err.None? ==> client.written == old(client.written) + Promised()
      ensures 1 <= |used| <= MAX_ATTEMPTS + 1 && used[0] == first
      ensures AllClosed(|used|)
    {
      hide Honest, Refusal, AgreesFrom, Header, ParseContentRange, NewPlan;
      PlannedAgrees(first.head, asked, first.body, resource);
      var sent: nat, attempts: nat := 0, 0;
      var current := first;
      used := [first];
      err := None;
      assert Promised()[..0] == [];
      while true
        invariant InUse(current) && |used| == attempts + 1 <= MAX_ATTEMPTS + 1 && used[0] == first
        invariant forall k :: 1 <= k < |used| ==> fresh(used[k])
        invariant sent < Length(plan) && current.Open() && client.written == old(client.written) + Promised()[..sent]
        invariant AgreesFrom(current.body, resource, plan.first + sent) && current.pos == 0
        decreases MAX_ATTEMPTS - attempts
      {
        var n, ending, failure := CopyChunk(current, Length(plan) - sent);
        Continues(current.body, sent, n);
        sent := sent + n;
        if failure.Some? {
          current.Close();
          return failure;
        }
        if sent >= Length(plan) {
          current.Close();
          assert Promised()[..sent] == Promised();
          return None;
        }
        if ending == EndOfFile { ending := UnexpectedEOF; }
        var cancelled: bool := *;
        if cancelled {
          current.Close();
          return Some(ReadError(ending));
        }
        if attempts >= MAX_ATTEMPTS {
          current.Close();
          return Some(AttemptsExhausted);
        }
        attempts := attempts + 1;
        var next, refused := Renew(current, plan.first + sent);
        if next.None? { return Some(refused); }
        current := next.value;
      }
    }
  }
}
