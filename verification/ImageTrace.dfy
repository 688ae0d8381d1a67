/** Where the files of the image cache come from: a history of what was put where. */
module ImageTrace {
  import opened Wrappers

  type Bytes = seq<bv8>

  const STATUS_OK := 200

  datatype Meta = Meta(key: string, status: nat, header: string, createdAt: int, expiresAt: int)

  /** A response with status 200 that was read to its end.  Its place in the list of all of them
      is its identity: two fetches of one image are two responses. */
  datatype Response = Response(key: string, header: string, body: Bytes)

  /** The body files, the header files and the headers kept in memory, each under its key. */
  datatype Files = Files(bodies: map<string, Bytes>, metas: map<string, Meta>, remembered: map<string, Meta>)

  datatype Place = Body | Headers | Memory

  datatype Step = In(place: Place, key: string, id: nat) | Out(place: Place, key: string)

  /** `own` tells the steps of the requests in view from everybody else's. */
  datatype Event = Event(step: Step, own: bool)

  /** The response whose data a place holds. */
  function At(trace: seq<Event>, place: Place, key: string): Option<nat> {
    if trace == [] then None
    else
      var step := trace[|trace|-1].step;
      if step.place == place && step.key == key then if step.In? then Some(step.id) else None
      else At(trace[..|trace|-1], place, key)
  }

  lemma AtAppend(trace: seq<Event>, e: Event, place: Place, key: string)
    ensures At(trace + [e], place, key)
            == if e.step.place == place && e.step.key == key then (if e.step.In? then Some(e.step.id) else None)
               else At(trace, place, key)
  {
    assert (trace + [e])[..|trace|] == trace;
  }

  // ---------- who did what since ----------

  /** Nobody else touched a key since a point in the history. */
  predicate QuietSince(trace: seq<Event>, n: nat, key: string) {
    forall j :: n <= j < |trace| ==> trace[j].own || trace[j].step.key != key
  }

  /** The files of one key are as they were. */
  predicate Untouched(before: Files, after: Files, key: string) {
    && (key in before.bodies <==> key in after.bodies)
    && (key in before.bodies ==> before.bodies[key] == after.bodies[key])
    && (key in before.metas <==> key in after.metas)
    && (key in before.metas ==> before.metas[key] == after.metas[key])
    && (key in before.remembered <==> key in after.remembered)
    && (key in before.remembered ==> before.remembered[key] == after.remembered[key])
  }

  /** The body of a response has never been put in place. */
  ghost predicate Unplaced(trace: seq<Event>, id: nat) {
    forall j :: 0 <= j < |trace| && trace[j].step.In? && trace[j].step.place == Body ==> trace[j].step.id != id
  }

  /** The body of a response was once put in place. */
  predicate Came(trace: seq<Event>, key: string, id: nat) {
    exists j :: 0 <= j < |trace| && trace[j].step == In(Body, key, id)
  }

  lemma CameAppend(trace: seq<Event>, e: Event, key: string, id: nat)
    ensures Came(trace, key, id) ==> Came(trace + [e], key, id)
    ensures e.step == In(Body, key, id) ==> Came(trace + [e], key, id)
  {
    var longer := trace + [e];
    if Came(trace, key, id) {
      var j :| 0 <= j < |trace| && trace[j].step == In(Body, key, id);
      assert longer[j].step == In(Body, key, id);
    }
    assert longer[|trace|] == e;
  }

  lemma CameLater(before: seq<Event>, after: seq<Event>, key: string, id: nat)
    requires before <= after && Came(before, key, id)
    ensures Came(after, key, id)
  {
    var j :| 0 <= j < |before| && before[j].step == In(Body, key, id);
    assert after[j].step == In(Body, key, id);
  }

  // ---------- histories the code can make ----------

  /** Headers get into a place only after the body of their own response was put in place. */
  ghost predicate Follows(trace: seq<Event>, j: nat)
    requires j < |trace|
  {
    trace[j].step.In? ==> Came(trace[..j + 1], trace[j].step.key, trace[j].step.id)
  }

  /** Every body is put in place once, and headers follow their body. */
  ghost predicate Orderly(trace: seq<Event>) {
    && (forall j :: 0 <= j < |trace| && trace[j].step.In? && trace[j].step.place == Body
          ==> Unplaced(trace[..j], trace[j].step.id))
    && (forall j :: 0 <= j < |trace| ==> Follows(trace, j))
  }

  lemma OrderlyAppend(trace: seq<Event>, e: Event)
    requires Orderly(trace)
    requires e.step.In? && e.step.place == Body ==> Unplaced(trace, e.step.id)
    requires e.step.In? && e.step.place != Body ==> Came(trace, e.step.key, e.step.id)
    ensures Orderly(trace + [e])
  {
    hide Unplaced;
    var longer := trace + [e];
    forall j | 0 <= j < |longer| ensures Follows(longer, j) {
      if j < |trace| {
        assert longer[..j + 1] == trace[..j + 1];
        assert Follows(trace, j);
      } else {
        assert longer[..j + 1] == longer;
        if e.step.In? { CameAppend(trace, e, e.step.key, e.step.id); }
      }
    }
    forall j | 0 <= j < |longer| && longer[j].step.In? && longer[j].step.place == Body
      ensures Unplaced(longer[..j], longer[j].step.id)
    {
      assert longer[..j] == trace[..j];
      assert trace[..|trace|] == trace;
    }
  }

  /** What a place holds was put there, and nothing has happened to the place since. */
  lemma {:induction false} LastIn(trace: seq<Event>, place: Place, key: string) returns (i: nat)
    requires At(trace, place, key).Some?
    ensures i < |trace| && trace[i].step == In(place, key, At(trace, place, key).value)
    ensures forall j :: i < j < |trace| ==> !(trace[j].step.place == place && trace[j].step.key == key)
  {
    var step := trace[|trace|-1].step;
    if step.place == place && step.key == key {
      i := |trace| - 1;
    } else {
      i := LastIn(trace[..|trace|-1], place, key);
    }
  }

  /** What any place holds has had its body in place. */
  lemma HeldCame(trace: seq<Event>, place: Place, key: string)
    requires Orderly(trace) && At(trace, place, key).Some?
    ensures Came(trace, key, At(trace, place, key).value)
  {
    var i := LastIn(trace, place, key);
    assert Follows(trace, i);
    CameLater(trace[..i + 1], trace, key, trace[i].step.id);
  }

  lemma PlacedOnce(trace: seq<Event>, i: nat, j: nat)
    requires Orderly(trace) && i < j < |trace|
    requires trace[i].step.In? && trace[i].step.place == Body && trace[j].step.In? && trace[j].step.place == Body
    ensures trace[i].step.id != trace[j].step.id
  {
    assert Unplaced(trace[..j], trace[j].step.id);
    assert trace[..j][i] == trace[i];
  }

  // ---------- body and headers ----------

  predicate BodyIn(e: Event, key: string) {
    e.step.In? && e.step.place == Body && e.step.key == key
  }

  /** After the body of response `h` was put in place, that of another response to the key was. */
  ghost predicate Displaced(trace: seq<Event>, key: string, h: nat) {
    exists i, j :: 0 <= i < j < |trace| && trace[i].step == In(Body, key, h) && BodyIn(trace[j], key)
  }

  /** In every history: headers of response `h` and the body in place belong to one response exactly
      when no other body has been put in place for the key since that of `h`. */
  lemma PairedExactlyWhen(trace: seq<Event>, key: string, h: nat)
    requires Orderly(trace) && Came(trace, key, h) && At(trace, Body, key).Some?
    ensures At(trace, Body, key) == Some(h) <==> !Displaced(trace, key, h)
  {
    hide Orderly, At, Came;
    var b := LastIn(trace, Body, key);
    var i := WhereIn(trace, key, h);
    if At(trace, Body, key) == Some(h) {
      forall m, n | 0 <= m < n < |trace| && trace[m].step == In(Body, key, h) ensures !BodyIn(trace[n], key) {
        if m < b { PlacedOnce(trace, m, b); }
      }
    } else {
      assert BodyIn(trace[b], key);
    }
  }

  lemma WhereIn(trace: seq<Event>, key: string, h: nat) returns (i: nat)
    requires Came(trace, key, h)
    ensures i < |trace| && trace[i].step == In(Body, key, h)
  {
    i :| i < |trace| && trace[i].step == In(Body, key, h);
  }

  /** So a lookup that reads the headers of the body in place serves one response, if nobody puts
      another body in place before it opens the file. */
  lemma ReadThenOpen(before: seq<Event>, after: seq<Event>, key: string, h: nat)
    requires before <= after && At(before, Body, key) == Some(h) && At(after, Body, key).Some?
    requires forall j :: |before| <= j < |after| ==> !BodyIn(after[j], key)
    ensures At(after, Body, key) == Some(h)
  {
    hide At;
    var b := LastIn(after, Body, key);
    var i := LastIn(before, Body, key);
    assert BodyIn(after[b], key);
    assert after[b] == before[b] && after[i] == before[i];
  }

  // ---------- files of one response ----------

  /** Whatever the places of a key hold is of one response. */
  predicate Agreed(trace: seq<Event>, key: string, a: nat) {
    && (At(trace, Body, key).Some? ==> At(trace, Body, key).value == a)
    && (At(trace, Headers, key).Some? ==> At(trace, Headers, key).value == a)
    && (At(trace, Memory, key).Some? ==> At(trace, Memory, key).value == a)
  }

  /** Since a point in the history nobody else has put anything of another response in place. */
  predicate OnlyOf(trace: seq<Event>, n: nat, key: string, a: nat) {
    forall j :: n <= j < |trace| && !trace[j].own && trace[j].step.In? && trace[j].step.key == key
                ==> trace[j].step.id == a
  }

  /** A stretch of the history mixes no responses of its own accord. */
  ghost predicate Keeps(p: seq<Event>, q: seq<Event>, key: string) {
    forall a :: Agreed(p, key, a) && OnlyOf(q, |p|, key, a) ==> Agreed(q, key, a)
  }

  /** A response got from the places of the key is the one they agreed on. */
  ghost predicate Stems(p: seq<Event>, q: seq<Event>, key: string, id: nat) {
    forall a :: Agreed(p, key, a) && OnlyOf(q, |p|, key, a) ==> id == a
  }

  lemma OnlyOfParts(p: seq<Event>, q: seq<Event>, r: seq<Event>, key: string, a: nat)
    requires p <= q <= r && OnlyOf(r, |p|, key, a)
    ensures OnlyOf(q, |p|, key, a) && OnlyOf(r, |q|, key, a)
  {
  }

  lemma KeepsThrough(p: seq<Event>, q: seq<Event>, r: seq<Event>, key: string)
    requires p <= q <= r && Keeps(p, q, key) && Keeps(q, r, key)
    ensures Keeps(p, r, key)
  {
    hide Agreed, OnlyOf;
    forall a | Agreed(p, key, a) && OnlyOf(r, |p|, key, a) ensures Agreed(r, key, a) {
      OnlyOfParts(p, q, r, key, a);
    }
  }

  lemma HeldStems(p: seq<Event>, q: seq<Event>, key: string, place: Place, id: nat)
    requires Keeps(p, q, key) && At(q, place, key) == Some(id)
    ensures Stems(p, q, key, id)
  {
    hide OnlyOf, At;
  }

  lemma StemsThrough(p: seq<Event>, q: seq<Event>, r: seq<Event>, key: string, id: nat)
    requires p <= q <= r && Stems(p, q, key, id)
    ensures Stems(p, r, key, id)
  {
    hide Agreed, OnlyOf;
    forall a | Agreed(p, key, a) && OnlyOf(r, |p|, key, a) ensures id == a {
      OnlyOfParts(p, q, r, key, a);
    }
  }

  lemma StemsLater(p: seq<Event>, q: seq<Event>, r: seq<Event>, key: string, id: nat)
    requires p <= q <= r && Keeps(p, q, key) && Stems(q, r, key, id)
    ensures Stems(p, r, key, id)
  {
    hide Agreed, OnlyOf;
    forall a | Agreed(p, key, a) && OnlyOf(r, |p|, key, a) ensures id == a {
      OnlyOfParts(p, q, r, key, a);
    }
  }

  /** One's own steps keep agreement if they only remove, or put back what agrees. */
  lemma OwnKeeps(p: seq<Event>, q: seq<Event>, e: Event, key: string)
    requires p <= q && Keeps(p, q, key)
    requires e.step.In? && e.step.key == key ==> Stems(p, q, key, e.step.id)
    ensures Keeps(p, q + [e], key)
  {
    hide At;
    forall a | Agreed(p, key, a) && OnlyOf(q + [e], |p|, key, a) ensures Agreed(q + [e], key, a) {
      OnlyOfParts(p, q, q + [e], key, a);
      AtAppend(q, e, Body, key);
      AtAppend(q, e, Headers, key);
      AtAppend(q, e, Memory, key);
    }
  }

  /** So do steps that are all other people's. */
  lemma {:induction false} OthersKeep(p: seq<Event>, q: seq<Event>, key: string)
    requires p <= q && forall j :: |p| <= j < |q| ==> !q[j].own
    ensures Keeps(p, q, key)
  {
    if |p| < |q| {
      var most, e := q[..|q|-1], q[|q|-1];
      assert most + [e] == q;
      OthersKeep(p, most, key);
      hide At;
      forall a | Agreed(p, key, a) && OnlyOf(q, |p|, key, a) ensures Agreed(q, key, a) {
        OnlyOfParts(p, most, q, key, a);
        assert q[|q|-1] == e;
        AtAppend(most, e, Body, key);
        AtAppend(most, e, Headers, key);
        AtAppend(most, e, Memory, key);
      }
    } else {
      assert p == q;
    }
  }

  // ---------- what the files are ----------

  predicate Describes(meta: Meta, key: string, responses: seq<Response>, id: nat) {
    && id < |responses| && responses[id].key == key && responses[id].header == meta.header
    && meta.key == key && meta.status == STATUS_OK
  }

  predicate Holds(body: Bytes, key: string, responses: seq<Response>, id: nat) {
    id < |responses| && responses[id].key == key && responses[id].body == body
  }

  /** The three places of a key hold what the history says. */
  predicate Accounted(files: Files, responses: seq<Response>, trace: seq<Event>, key: string) {
    && (key in files.bodies <==> At(trace, Body, key).Some?)
    && (key in files.bodies ==> Holds(files.bodies[key], key, responses, At(trace, Body, key).value))
    && (key in files.metas <==> At(trace, Headers, key).Some?)
    && (key in files.metas ==> Describes(files.metas[key], key, responses, At(trace, Headers, key).value))
    && (key in files.remembered <==> At(trace, Memory, key).Some?)
    && (key in files.remembered ==> Describes(files.remembered[key], key, responses, At(trace, Memory, key).value))
  }

  /** Every file is that of one complete response to its key, and the history tells which. */
  ghost predicate Explains(files: Files, responses: seq<Response>, trace: seq<Event>) {
    Orderly(trace) && Numbered(responses, trace) && forall key :: Accounted(files, responses, trace, key)
  }

  predicate Numbered(responses: seq<Response>, trace: seq<Event>) {
    forall j :: 0 <= j < |trace| && trace[j].step.In? ==> trace[j].step.id < |responses|
  }

  /** A response that has just been read to its end is in no file yet. */
  lemma NewIsUnplaced(files: Files, responses: seq<Response>, trace: seq<Event>)
    requires Explains(files, responses, trace)
    ensures Unplaced(trace, |responses|)
  {
    hide Orderly, Accounted;
  }

  /** One step on the files.  Headers may be put anywhere once their body has been in place. */
  ghost predicate Moves(files: Files, responses: seq<Response>, trace: seq<Event>, step: Step, after: Files) {
    match step
    case In(Body, key, id) =>
      id < |responses| && responses[id].key == key && Unplaced(trace, id)
      && after == files.(bodies := files.bodies[key := responses[id].body])
    case In(Headers, key, id) =>
      Came(trace, key, id) && key in after.metas && Describes(after.metas[key], key, responses, id)
      && after == files.(metas := files.metas[key := after.metas[key]])
    case In(Memory, key, id) =>
      Came(trace, key, id) && key in after.remembered && Describes(after.remembered[key], key, responses, id)
      && after == files.(remembered := files.remembered[key := after.remembered[key]])
    case Out(Body, key) => after == files.(bodies := files.bodies - {key})
    case Out(Headers, key) => after == files.(metas := files.metas - {key})
    case Out(Memory, key) => after == files.(remembered := files.remembered - {key})
  }

  lemma MoveHere(files: Files, responses: seq<Response>, trace: seq<Event>, e: Event, after: Files)
    requires Accounted(files, responses, trace, e.step.key) && Moves(files, responses, trace, e.step, after)
    ensures Accounted(after, responses, trace + [e], e.step.key)
  {
    hide Came, Unplaced, At;
    AtAppend(trace, e, Body, e.step.key);
    AtAppend(trace, e, Headers, e.step.key);
    AtAppend(trace, e, Memory, e.step.key);
  }

  lemma MoveElsewhere(files: Files, responses: seq<Response>, trace: seq<Event>, e: Event, after: Files, key: string)
    requires Accounted(files, responses, trace, key) && Moves(files, responses, trace, e.step, after)
    requires key != e.step.key
    ensures Accounted(after, responses, trace + [e], key) && Untouched(files, after, key)
  {
    hide Came, Unplaced, At, Holds, Describes;
    AtAppend(trace, e, Body, key);
    AtAppend(trace, e, Headers, key);
    AtAppend(trace, e, Memory, key);
  }

  /** A step keeps the files explained, and touches one key. */
  lemma MoveKeeps(files: Files, responses: seq<Response>, trace: seq<Event>, e: Event, after: Files)
    requires Explains(files, responses, trace) && Moves(files, responses, trace, e.step, after)
    ensures Explains(after, responses, trace + [e])
    ensures forall key :: key != e.step.key ==> Untouched(files, after, key)
  {
    OrderlyAppend(trace, e);
    assert Numbered(responses, trace + [e]);
    hide Orderly, Came, Unplaced, At, Numbered, Moves, Untouched, Accounted;
    forall key
      ensures Accounted(after, responses, trace + [e], key) && (key != e.step.key ==> Untouched(files, after, key))
    {
      if key == e.step.key {
        MoveHere(files, responses, trace, e, after);
      } else {
        MoveElsewhere(files, responses, trace, e, after, key);
      }
    }
  }

  /** One more response is known; no file changes. */
  lemma KnownKeeps(files: Files, responses: seq<Response>, r: Response, trace: seq<Event>)
    requires Explains(files, responses, trace)
    ensures Explains(files, responses + [r], trace)
  {
    assert Numbered(responses + [r], trace);
    hide Orderly, At, Numbered;
    forall key ensures Accounted(files, responses + [r], trace, key) {
      assert Accounted(files, responses, trace, key);
    }
  }
}
