/** The image cache on disk: requests interleave freely, one request fills a key at a time, and
    only a response read to its end becomes visible. */
module ImageCache {
  import opened Wrappers
  import opened ImageTrace

  const STATUS_FORBIDDEN := 403

  datatype Verb = GET | HEAD | OtherVerb

  datatype Served = Whole(meta: Meta, body: Bytes) | HeadersOnly(meta: Meta) | Unchanged(meta: Meta)

  /** A moment in the life of a cache: its files, every complete response read so far, what was put
      where, and the fills begun and finished. */
  datatype Moment = Moment(files: Files, responses: seq<Response>, trace: seq<Event>, finished: set<nat>,
                           keyOf: map<nat, string>)

  /** What is known only grows. */
  predicate Grown(p: Moment, q: Moment) {
    && p.responses <= q.responses && p.trace <= q.trace && p.finished <= q.finished
    && forall f <- p.keyOf :: f in q.keyOf && q.keyOf[f] == p.keyOf[f]
  }

  lemma GrownThrough(p: Moment, q: Moment, r: Moment)
    requires Grown(p, q) && Grown(q, r)
    ensures Grown(p, r)
  {
  }

  /** Keys nobody touched are as they were, and nobody places the body of a response known before. */
  ghost predicate Aside(p: Moment, q: Moment) {
    && (forall j :: |p.trace| <= j < |q.trace| ==> !q.trace[j].own)
    && (forall key :: QuietSince(q.trace, |p.trace|, key) ==> Untouched(p.files, q.files, key))
    && (forall id: nat :: id < |p.responses| && Unplaced(p.trace, id) ==> Unplaced(q.trace, id))
  }

  lemma AsideThrough(p: Moment, q: Moment, r: Moment)
    requires Grown(p, q) && Grown(q, r) && Aside(p, q) && Aside(q, r)
    ensures Aside(p, r)
  {
    hide Unplaced;
    forall j | |p.trace| <= j < |r.trace| ensures !r.trace[j].own {
      if j < |q.trace| { assert r.trace[j] == q.trace[j]; }
    }
    forall key | QuietSince(r.trace, |p.trace|, key) ensures Untouched(p.files, r.files, key) {
      QuietPart(r.trace, |p.trace|, q.trace, |p.trace|, key);
      QuietPart(r.trace, |p.trace|, r.trace, |q.trace|, key);
    }
  }

  lemma QuietPart(trace: seq<Event>, n: nat, part: seq<Event>, m: nat, key: string)
    requires part <= trace && n <= m
    ensures QuietSince(trace, n, key) ==> QuietSince(part, m, key)
  {
  }

  /** One foreign step. */
  lemma StepAside(p: Moment, q: Moment, e: Event)
    requires q.trace == p.trace + [e] && !e.own && Grown(p, q)
    requires forall key :: key != e.step.key ==> Untouched(p.files, q.files, key)
    requires e.step.In? && e.step.place == Body ==> e.step.id >= |p.responses|
    ensures Aside(p, q)
  {
    assert q.trace[|p.trace|] == e;
  }

  /** The headers are those of a response whose body has been in place. */
  predicate Known(responses: seq<Response>, trace: seq<Event>, key: string, meta: Meta, h: nat) {
    Describes(meta, key, responses, h) && Came(trace, key, h)
  }

  lemma KnownGrows(p: Moment, q: Moment, key: string, meta: Meta, h: nat)
    requires Grown(p, q) && Known(p.responses, p.trace, key, meta, h)
    ensures Known(q.responses, q.trace, key, meta, h)
  {
    CameLater(p.trace, q.trace, key, h);
  }

  class Cache {
    const ttl: int
    // files
    var bodies: map<string, Bytes>
    var metas: map<string, Meta>
    // memory
    var remembered: map<string, Meta>
    var fills: map<string, nat>
    var nextFill: nat
    var finished: set<nat>
    // history, which no decision of the code depends on: every fill ever begun, every complete
    // response ever read, and what was put where
    ghost var keyOf: map<nat, string>
    var responses: seq<Response>
    var trace: seq<Event>

    ghost function Disk(): Files
      reads `bodies, `metas, `remembered
    {
      Files(bodies, metas, remembered)
    }

    ghost function Now(): Moment
      reads this
    {
      Moment(Disk(), responses, trace, finished, keyOf)
    }

    ghost predicate FilesValid()
      reads `bodies, `metas, `remembered, `responses, `trace
    {
      Explains(Disk(), responses, trace)
    }

    /** The unfinished fills are exactly the registered ones, each under its key. */
    ghost predicate FillsValid()
      reads `fills, `nextFill, `finished, `keyOf
    {
      && (forall k <- fills :: fills[k] in keyOf && keyOf[fills[k]] == k && fills[k] !in finished)
      && (forall f <- keyOf :: f < nextFill && (f in finished || (keyOf[f] in fills && fills[keyOf[f]] == f)))
      && (forall f <- finished :: f < nextFill)
    }

    ghost predicate Valid()
      reads this
    {
      FilesValid() && FillsValid()
    }

    constructor (ttl: int)
      requires ttl > 0
      ensures Valid() && Disk() == Files(map[], map[], map[]) && fills == map[]
      ensures responses == [] && trace == [] && keyOf == map[] && finished == {}
      ensures this.ttl == ttl
    {
      this.ttl := ttl;
      bodies, metas, remembered, fills, nextFill, finished := map[], map[], map[], map[], 0, {};
      keyOf, responses, trace := map[], [], [];
    }

    /** No key is being filled by two requests. */
    lemma OneLeader(f: nat, g: nat)
      requires FillsValid() && f in keyOf && g in keyOf && f !in finished && g !in finished && keyOf[f] == keyOf[g]
      ensures f == g
    {
      assert keyOf[f] in fills && fills[keyOf[f]] == f;
      assert keyOf[g] in fills && fills[keyOf[g]] == g;
    }

    // ---------- single steps ----------

    /** A response has been read to its end. */
    method Note(r: Response)
      requires FilesValid()
      modifies `responses
      ensures FilesValid() && responses == old(responses) + [r]
    {
      KnownKeeps(Disk(), responses, r, trace);
      responses := responses + [r];
    }

    method PutBody(key: string, body: Bytes, id: nat, own: bool)
      requires FilesValid() && Holds(body, key, responses, id) && Unplaced(trace, id)
      modifies `bodies, `trace
      ensures FilesValid() && bodies == old(bodies)[key := body]
      ensures trace == old(trace) + [Event(In(Body, key, id), own)]
    {
      hide Explains, Unplaced;
      var e := Event(In(Body, key, id), own);
      MoveKeeps(Disk(), responses, trace, e, Disk().(bodies := bodies[key := body]));
      bodies := bodies[key := body];
      trace := trace + [e];
    }

    method PutMeta(key: string, meta: Meta, id: nat, own: bool)
      requires FilesValid() && Describes(meta, key, responses, id) && Came(trace, key, id)
      modifies `metas, `trace
      ensures FilesValid() && metas == old(metas)[key := meta]
      ensures trace == old(trace) + [Event(In(Headers, key, id), own)]
    {
      hide Explains, Came;
      var e := Event(In(Headers, key, id), own);
      MoveKeeps(Disk(), responses, trace, e, Disk().(metas := metas[key := meta]));
      metas := metas[key := meta];
      trace := trace + [e];
    }

    method Keep(key: string, meta: Meta, id: nat, own: bool)
      requires FilesValid() && Describes(meta, key, responses, id) && Came(trace, key, id)
      modifies `remembered, `trace
      ensures FilesValid() && remembered == old(remembered)[key := meta]
      ensures trace == old(trace) + [Event(In(Memory, key, id), own)]
    {
      hide Explains, Came;
      var e := Event(In(Memory, key, id), own);
      MoveKeeps(Disk(), responses, trace, e, Disk().(remembered := remembered[key := meta]));
      remembered := remembered[key := meta];
      trace := trace + [e];
    }

    method TakeBody(key: string, own: bool)
      requires FilesValid()
      modifies `bodies, `trace
      ensures FilesValid() && bodies == old(bodies) - {key}
      ensures trace == old(trace) + [Event(Out(Body, key), own)]
    {
      hide Explains;
      var e := Event(Out(Body, key), own);
      MoveKeeps(Disk(), responses, trace, e, Disk().(bodies := bodies - {key}));
      bodies := bodies - {key};
      trace := trace + [e];
    }

    method TakeMeta(key: string, own: bool)
      requires FilesValid()
      modifies `metas, `trace
      ensures FilesValid() && metas == old(metas) - {key}
      ensures trace == old(trace) + [Event(Out(Headers, key), own)]
    {
      hide Explains;
      var e := Event(Out(Headers, key), own);
      MoveKeeps(Disk(), responses, trace, e, Disk().(metas := metas - {key}));
      metas := metas - {key};
      trace := trace + [e];
    }

    method Drop(key: string, own: bool)
      requires FilesValid()
      modifies `remembered, `trace
      ensures FilesValid() && remembered == old(remembered) - {key}
      ensures trace == old(trace) + [Event(Out(Memory, key), own)]
    {
      hide Explains;
      var e := Event(Out(Memory, key), own);
      MoveKeeps(Disk(), responses, trace, e, Disk().(remembered := remembered - {key}));
      remembered := remembered - {key};
      trace := trace + [e];
    }

    /** Registers a fill unless one is under way; the empty key is never shared. */
    method BeginFill(key: string) returns (fill: Option<nat>, leader: bool)
      requires FillsValid()
      modifies `fills, `nextFill, `keyOf
      ensures FillsValid()
      ensures key == "" ==> fill.None? && leader && keyOf == old(keyOf)
      ensures key != "" ==> fill.Some? && (leader <==> key !in old(fills))
      ensures key != "" && leader ==>
                fill.value !in old(keyOf) && keyOf == old(keyOf)[fill.value := key] && fill.value !in finished
      ensures key != "" && !leader ==> fill.value == old(fills)[key] && keyOf == old(keyOf)
      ensures key != "" ==> key in fills && fills[key] == fill.value
    {
      if key == "" { return None, true; }
      if key in fills { return Some(fills[key]), false; }
      fill, leader := Some(nextFill), true;
      keyOf := keyOf[nextFill := key];
      fills, nextFill := fills[key := nextFill], nextFill + 1;
    }

    /** Takes effect once; whoever waits is released. */
    method FinishFill(fill: nat)
      requires FillsValid() && fill in keyOf
      modifies `fills, `finished
      ensures FillsValid() && finished == old(finished) + {fill}
      ensures keyOf[fill] in old(fills) && old(fills)[keyOf[fill]] == fill ==> keyOf[fill] !in fills
    {
      if fill in finished { return; }
      var key: string :| key in fills && fills[key] == fill;
      assert key == keyOf[fill];
      fills, finished := fills - {key}, finished + {fill};
    }

    // ---------- everybody else ----------

    /** Anything other requests, the cleanup and the administrator may do in between; only the fills
        a request leads are left to it. */
    method Interfere(mine: set<nat>)
      requires Valid() && mine !! finished
      modifies this
      ensures Valid() && mine !! finished && Grown(old(Now()), Now()) && Aside(old(Now()), Now())
    {
      var steps: nat :| 0 <= steps;
      ghost var past := Now();
      for i := 0 to steps
        invariant Valid() && mine !! finished && Grown(past, Now()) && Aside(past, Now())
      {
        hide FilesValid, FillsValid, Grown, Aside;
        ghost var was := Now();
        var files: bool := *;
        if files { OtherFileStep(); } else { OtherFillStep(mine); }
        AsideThrough(past, was, Now());
        GrownThrough(past, was, Now());
      }
    }

    method OtherFileStep()
      requires FilesValid()
      modifies `bodies, `metas, `remembered, `responses, `trace
      ensures FilesValid() && Grown(old(Now()), Now()) && Aside(old(Now()), Now())
    {
      hide FilesValid, Came, Unplaced;
      var key: string, what: nat := *, *;
      ghost var past := Now();
      if what == 0 {
        OtherBody(key);
      } else if what == 1 {
        OtherHeaders(key);
      } else {
        if what == 2 {
          TakeBody(key, false);
        } else if what == 3 {
          TakeMeta(key, false);
        } else {
          Drop(key, false);
        }
        StepAside(past, Now(), trace[|trace|-1]);
      }
    }

    /** Another store has read its response to the end and puts the body in place. */
    method OtherBody(key: string)
      requires FilesValid()
      modifies `bodies, `responses, `trace
      ensures FilesValid() && Grown(old(Now()), Now()) && Aside(old(Now()), Now())
    {
      var header: string, body: Bytes := *, *;
      ghost var past := Now();
      var id := |responses|;
      NewIsUnplaced(Disk(), responses, trace);
      hide FilesValid, Unplaced;
      Note(Response(key, header, body));
      PutBody(key, body, id, false);
      StepAside(past, Now(), Event(In(Body, key, id), false));
    }

    /** Headers of a response whose body has been in place get into the file or into memory. */
    method OtherHeaders(key: string)
      requires FilesValid()
      modifies `metas, `remembered, `trace
      ensures FilesValid() && Grown(old(Now()), Now()) && Aside(old(Now()), Now())
    {
      hide FilesValid;
      var meta: Meta, h: nat, inFile: bool := *, *, *;
      ghost var past := Now();
      if Known(responses, trace, key, meta, h) {
        if inFile { PutMeta(key, meta, h, false); } else { Keep(key, meta, h, false); }
        StepAside(past, Now(), trace[|trace|-1]);
      }
    }

    method OtherFillStep(mine: set<nat>)
      requires FillsValid() && mine !! finished
      modifies `fills, `nextFill, `finished, `keyOf
      ensures FillsValid() && mine !! finished && Grown(old(Now()), Now()) && Aside(old(Now()), Now())
    {
      var key: string := *;
      if key !in fills {
        var fill, leader := BeginFill(key);
      } else if fills[key] !in mine {
        FinishFill(fills[key]);
      }
    }

    // ---------- lookup ----------

    predicate Expired(meta: Meta, now: int) {
      if meta.createdAt > 0 && ttl > 0 then meta.createdAt + ttl <= now
      else if meta.expiresAt > 0 then meta.expiresAt <= now
      else true
    }

    /** Both files of a key are in place, and memory does not contradict them. */
    ghost predicate Stored(key: string)
      reads `bodies, `metas, `remembered
    {
      key in bodies && key in metas && (key in remembered ==> remembered[key] == metas[key])
    }

    /** The rest of the call's steps left a stored image alone. */
    twostate predicate StillStored(key: string)
      reads `bodies, `metas
    {
      key in bodies && key in metas && key in old(bodies) && bodies[key] == old(bodies)[key]
      && key in old(metas) && metas[key] == old(metas)[key]
    }

    /** Headers file, body file, memory; nothing is locked in between. */
    method Remove(key: string, mine: set<nat>)
      requires Valid() && mine !! finished
      modifies this
      ensures Valid() && mine !! finished && Grown(old(Now()), Now()) && Keeps(old(trace), trace, key)
    {
      hide FilesValid, FillsValid, Keeps, Untouched, QuietSince;
      ghost var t := trace;
      OthersKeep(t, t, key);
      TakeMeta(key, true);
      OwnKeeps(t, t, trace[|trace|-1], key);
      Pause(key, mine, t);
      ghost var t2 := trace;
      TakeBody(key, true);
      OwnKeeps(t, t2, trace[|trace|-1], key);
      Pause(key, mine, t);
      ghost var t3 := trace;
      Drop(key, true);
      OwnKeeps(t, t3, trace[|trace|-1], key);
    }

    /** Others go on; what the places of a key agreed on since `t` they still agree on. */
    method Pause(key: string, mine: set<nat>, ghost t: seq<Event>)
      requires Valid() && mine !! finished && t <= trace && Keeps(t, trace, key)
      modifies this
      ensures Valid() && mine !! finished && Grown(old(Now()), Now()) && Aside(old(Now()), Now())
      ensures Keeps(t, trace, key)
    {
      hide FilesValid, FillsValid, Keeps;
      ghost var was := trace;
      Interfere(mine);
      OthersKeep(was, trace, key);
      KeepsThrough(t, was, trace, key);
    }

    /** From memory, else from the file; what cannot be trusted is removed. */
    method ReadMeta(key: string, mine: set<nat>) returns (meta: Option<Meta>, h: nat, fault: bool)
      requires Valid() && mine !! finished
      modifies this
      ensures Valid() && mine !! finished && Grown(old(Now()), Now())
      ensures meta.Some? ==> !fault && Known(responses, trace, key, meta.value, h) && Stems(old(trace), trace, key, h)
      ensures Keeps(old(trace), trace, key)
      ensures old(Stored(key)) && !fault && QuietSince(trace, |old(trace)|, key) ==>
                meta == Some(old(metas)[key]) && StillStored(key)
    {
      hide FilesValid, FillsValid, Keeps, Stems;
      h, fault := 0, false;
      ghost var t := trace;
      OthersKeep(t, t, key);
      if key in remembered {
        // entries are believed for a minute
        var recent: bool := *;
        if recent {
          h := Source(Memory, key);
          HeldStems(t, t, key, Memory, h);
          return Some(remembered[key]), h, false;
        }
        Drop(key, true);
        OwnKeeps(t, t, trace[|trace|-1], key);
      }
      ghost var first := trace;
      meta, h, fault := ReadFile(key, mine);
      QuietPart(trace, |t|, trace, |first|, key);
      KeepsThrough(t, first, trace, key);
      if meta.Some? { StemsLater(t, first, trace, key, h); }
    }

    method ReadFile(key: string, mine: set<nat>) returns (meta: Option<Meta>, h: nat, fault: bool)
      requires Valid() && mine !! finished
      modifies this
      ensures Valid() && mine !! finished && Grown(old(Now()), Now())
      ensures meta.Some? ==> !fault && Known(responses, trace, key, meta.value, h) && Stems(old(trace), trace, key, h)
      ensures Keeps(old(trace), trace, key)
      ensures (key in old(bodies) && key in old(metas) && !fault && QuietSince(trace, |old(trace)|, key)) ==>
                meta == Some(old(metas)[key]) && StillStored(key)
    {
      hide FilesValid, FillsValid, Keeps, Stems;
      ghost var n, t := |trace|, trace;
      OthersKeep(t, t, key);
      Pause(key, mine, t);
      ghost var first := trace;
      fault := *;
      if key !in metas || fault { return None, 0, fault; }
      var read := metas[key];
      h := Source(Headers, key);
      HeldStems(t, first, key, Headers, h);
      meta, fault := Believe(key, read, h, mine);
      StemsThrough(t, first, trace, key, h);
      KeepsThrough(t, first, trace, key);
      QuietPart(trace, n, first, n, key);
      QuietPart(trace, n, trace, |first|, key);
    }

    /** The response a place's data come from. */
    method Source(place: Place, key: string) returns (id: nat)
      requires FilesValid()
      requires match place case Body => key in bodies case Headers => key in metas case Memory => key in remembered
      ensures At(trace, place, key) == Some(id) && Came(trace, key, id) && id < |responses|
      ensures place.Body? ==> Holds(bodies[key], key, responses, id)
      ensures place.Headers? ==> Describes(metas[key], key, responses, id)
      ensures place.Memory? ==> Describes(remembered[key], key, responses, id)
    {
      assert Accounted(Disk(), responses, trace, key);
      HeldCame(trace, place, key);
      id := At(trace, place, key).value;
    }

    /** What was read from the file is checked against the key, and the body has to be there. */
    method Believe(key: string, read: Meta, h: nat, mine: set<nat>) returns (meta: Option<Meta>, fault: bool)
      requires Valid() && mine !! finished && Known(responses, trace, key, read, h)
      requires At(trace, Headers, key) == Some(h)
      modifies this
      ensures Valid() && mine !! finished && Grown(old(Now()), Now()) && Keeps(old(trace), trace, key)
      ensures meta.Some? ==> !fault && meta.value == read && Known(responses, trace, key, read, h)
      ensures key in old(bodies) && key in old(metas) && !fault && QuietSince(trace, |old(trace)|, key) ==>
                meta == Some(read) && StillStored(key)
    {
      hide FilesValid, FillsValid, Keeps, Stems;
      ghost var n, t := |trace|, trace;
      OthersKeep(t, t, key);
      HeldStems(t, t, key, Headers, h);
      Pause(key, mine, t);
      ghost var first := trace;
      fault := *;
      if fault || read.key != key || read.status == 0 || key !in bodies {
        Remove(key, mine);
        KeepsThrough(t, first, trace, key);
        QuietPart(trace, n, first, n, key);
        return None, fault;
      }
      Pause(key, mine, t);
      KnownGrows(old(Now()), Now(), key, read, h);
      ghost var second := trace;
      StemsThrough(t, t, second, key, h);
      Keep(key, read, h, true);
      OwnKeeps(t, second, trace[|trace|-1], key);
      meta := Some(read);
      KnownGrows(old(Now()), Now(), key, read, h);
      QuietPart(trace, n, first, n, key);
      QuietPart(trace, n, second, |first|, key);
    }

    /** Headers that are at hand and have not expired are shown with the body that is there now. */
    function Showing(verb: Verb, key: string, meta: Meta, now: int, clientFresh: bool): Option<Served>
      reads `bodies
    {
      if Expired(meta, now) || key !in bodies then None
      else if clientFresh then Some(Unchanged(meta))
      else if verb == HEAD then Some(HeadersOnly(meta))
      else Some(Whole(meta, bodies[key]))
    }

    /** What a client is shown: headers of complete response `h` to its key, unexpired when the
        lookup reads the clock, and never a partial body but that of complete response `b`.  The two
        are one response exactly when no other body has been put in place since that of `h`. */
    ghost predicate Honest(key: string, served: Served, now: int, h: nat, b: nat)
      reads `responses, `trace
    {
      && Describes(served.meta, key, responses, h) && !Expired(served.meta, now)
      && (served.Whole? ==> Holds(served.body, key, responses, b) && (h == b <==> !Displaced(trace, key, h)))
    }

    method Get(verb: Verb, ranged: bool, key: string, now: int, mine: set<nat>)
      returns (hit: Option<Served>, h: nat, b: nat, fault: bool)
      requires Valid() && mine !! finished
      modifies this
      ensures Valid() && mine !! finished && Grown(old(Now()), Now())
      ensures hit.Some? ==> key != "" && verb != OtherVerb && !ranged && Honest(key, hit.value, now, h, b)
      ensures hit.Some? && hit.value.Whole? ==>
                verb == GET && Stems(old(trace), trace, key, h) && Stems(old(trace), trace, key, b)
      ensures old(Stored(key)) && key != "" && verb == GET && !ranged && !Expired(old(metas)[key], now)
              && !fault && QuietSince(trace, |old(trace)|, key) ==>
                hit == Some(Whole(old(metas)[key], old(bodies)[key])) || hit == Some(Unchanged(old(metas)[key]))
    {
      hide FilesValid, FillsValid, Honest, Keeps, Stems;
      hit, h, b, fault := None, 0, 0, false;
      if key == "" || verb == OtherVerb || ranged { return; }
      ghost var n, t := |trace|, trace;
      OthersKeep(t, t, key);
      Pause(key, mine, t);
      ghost var first := trace;
      var meta: Option<Meta>;
      meta, h, fault := ReadMeta(key, mine);
      ghost var second := trace;
      QuietPart(second, n, first, n, key);
      QuietPart(second, n, second, |first|, key);
      if meta.None? { return; }
      StemsLater(t, first, second, key, h);
      KeepsThrough(t, first, second, key);
      hit, b, fault := Open(verb, key, meta.value, h, now, mine);
      StemsThrough(t, second, trace, key, h);
      if hit.Some? && hit.value.Whole? { StemsLater(t, second, trace, key, b); }
      QuietPart(trace, n, second, n, key);
      QuietPart(trace, n, trace, |second|, key);
    }

    method Open(verb: Verb, key: string, meta: Meta, h: nat, now: int, mine: set<nat>)
      returns (hit: Option<Served>, b: nat, fault: bool)
      requires Valid() && mine !! finished && Known(responses, trace, key, meta, h) && verb != OtherVerb
      modifies this
      ensures Valid() && mine !! finished && Grown(old(Now()), Now())
      ensures hit.Some? ==> Honest(key, hit.value, now, h, b) && Stems(old(trace), trace, key, b)
      ensures hit.Some? && hit.value.Whole? ==> verb == GET
      ensures (key in old(bodies) && verb == GET && !Expired(meta, now) && !fault
               && QuietSince(trace, |old(trace)|, key)) ==>
                hit == Some(Whole(meta, old(bodies)[key])) || hit == Some(Unchanged(meta))
    {
      hide FilesValid, FillsValid, Honest, Keeps, Stems;
      ghost var n, t := |trace|, trace;
      Interfere(mine);
      ghost var first := trace;
      OthersKeep(t, first, key);
      KnownGrows(old(Now()), Now(), key, meta, h);
      var clientFresh: bool := *;
      b, fault, hit := 0, *, Showing(verb, key, meta, now, clientFresh);
      if fault || hit.None? {
        Remove(key, mine);
        QuietPart(trace, n, first, n, key);
        return None, 0, fault;
      }
      b := Source(Body, key);
      HeldStems(t, first, key, Body, b);
      ShownIsHonest(verb, key, meta, h, b, now, clientFresh);
    }

    lemma ShownIsHonest(verb: Verb, key: string, meta: Meta, h: nat, b: nat, now: int, clientFresh: bool)
      requires FilesValid() && Known(responses, trace, key, meta, h)
      requires key in bodies && At(trace, Body, key) == Some(b) && Holds(bodies[key], key, responses, b)
      requires Showing(verb, key, meta, now, clientFresh).Some?
      ensures Honest(key, Showing(verb, key, meta, now, clientFresh).value, now, h, b)
    {
      PairedExactlyWhen(trace, key, h);
    }
  }

  /** A response body on its way to the client, copied to a temporary file as it is read. */
  class Writer {
    const cache: Cache
    const key: string
    const meta: Meta
    var file: Bytes
    var done: bool
    var failed: bool
    var onDone: Option<nat>
    // what the upstream has delivered, which is also what the client has seen, and which of the
    // complete responses it became
    var got: Bytes
    var id: nat

    ghost predicate Valid()
      reads this, cache
    {
      && cache.Valid() && meta.status == STATUS_OK && meta.key == key
      && (!failed ==> file == got)
      && (onDone.Some? ==> onDone.value in cache.keyOf && onDone.value !in cache.finished)
    }

    /** Between the calls of a client: once done, the fill is over. */
    ghost predicate Settled()
      reads this, cache
    {
      Valid() && (done ==> onDone.None?)
    }

    /** Read to the end, and copied without a failure. */
    ghost predicate Ended()
      reads this, cache
    {
      done && !failed && id < |cache.responses| && cache.responses[id] == Response(key, meta.header, got)
    }

    function Mine(): set<nat>
      reads `onDone
    {
      if onDone.Some? then {onDone.value} else {}
    }

    constructor (cache: Cache, key: string, meta: Meta, onDone: Option<nat>)
      requires cache.Valid() && meta.key == key && meta.status == STATUS_OK
      requires onDone.Some? ==> onDone.value in cache.keyOf && onDone.value !in cache.finished
      ensures Settled() && this.cache == cache && this.key == key && this.meta == meta
      ensures this.onDone == onDone && !done && !failed && got == []
    {
      this.cache, this.key, this.meta, this.onDone := cache, key, meta, onDone;
      file, done, failed, got, id := [], false, false, [], 0;
    }

    /** The next lookup finds exactly what was read. */
    ghost predicate Visible()
      reads this, cache
    {
      cache.Stored(key) && cache.bodies[key] == got && cache.metas[key] == meta
      && key in cache.remembered && cache.remembered[key] == meta
    }

    /** The bytes of one read go to the client and, until a write fails, to the file. */
    method Take(chunk: Bytes, writeFails: bool)
      requires Valid() && !done
      modifies `file, `failed, `got
      ensures Valid() && got == old(got) + chunk
      ensures failed <==> old(failed) || (chunk != [] && writeFails)
    {
      got := got + chunk;
      if chunk != [] && !failed {
        if writeFails { failed := true; } else { file := file + chunk; }
      }
    }

    /** The end of the upstream's answer. */
    method End()
      requires Valid() && !done
      modifies `done, `id, cache`responses
      ensures Valid() && done && id == |old(cache.responses)| && Unplaced(cache.trace, id)
      ensures cache.responses == old(cache.responses) + [Response(key, meta.header, got)]
    {
      done, id := true, |cache.responses|;
      NewIsUnplaced(cache.Disk(), cache.responses, cache.trace);
      cache.Note(Response(key, meta.header, got));
    }

    method RenameBody()
      requires Valid() && Ended() && Unplaced(cache.trace, id)
      modifies cache`bodies, cache`trace
      ensures Valid() && cache.bodies == old(cache.bodies)[key := got] && Came(cache.trace, key, id)
      ensures cache.trace == old(cache.trace) + [Event(In(Body, key, id), true)]
    {
      hide Cache.FilesValid, Cache.FillsValid;
      cache.PutBody(key, file, id, true);
      CameAppend(old(cache.trace), Event(In(Body, key, id), true), key, id);
    }

    method RenameMeta()
      requires Valid() && Ended() && Came(cache.trace, key, id)
      modifies cache`metas, cache`trace
      ensures Valid() && cache.metas == old(cache.metas)[key := meta] && Came(cache.trace, key, id)
      ensures cache.trace == old(cache.trace) + [Event(In(Headers, key, id), true)]
    {
      hide Cache.FilesValid, Cache.FillsValid;
      cache.PutMeta(key, meta, id, true);
      CameAppend(old(cache.trace), Event(In(Headers, key, id), true), key, id);
    }

    method Remember()
      requires Valid() && Ended() && Came(cache.trace, key, id)
      modifies cache`remembered, cache`trace
      ensures Valid() && cache.remembered == old(cache.remembered)[key := meta] && Came(cache.trace, key, id)
      ensures cache.trace == old(cache.trace) + [Event(In(Memory, key, id), true)]
    {
      hide Cache.FilesValid, Cache.FillsValid;
      cache.Keep(key, meta, id, true);
      CameAppend(old(cache.trace), Event(In(Memory, key, id), true), key, id);
    }

    /** Body first, then headers, then memory; a failure takes the body away again. */
    method Publish() returns (fault: bool)
      requires Valid() && Ended() && Unplaced(cache.trace, id)
      modifies cache
      ensures Valid() && Grown(old(cache.Now()), cache.Now())
      ensures !fault && QuietSince(cache.trace, |old(cache.trace)|, key) ==> Visible()
    {
      hide Cache.FilesValid, Cache.FillsValid, Came, Unplaced;
      ghost var n := |cache.trace|;
      fault := *;
      if fault { return; }
      RenameBody();
      ghost var first := cache.trace;
      cache.Interfere(Mine());
      CameLater(first, cache.trace, key, id);
      ghost var second := cache.trace;
      fault := PublishHeaders();
      QuietPart(cache.trace, n, second, |first|, key);
      QuietPart(cache.trace, n, cache.trace, |second|, key);
    }

    method PublishHeaders() returns (fault: bool)
      requires Valid() && Ended() && Came(cache.trace, key, id)
      modifies cache
      ensures Valid() && Grown(old(cache.Now()), cache.Now())
      ensures (!fault && key in old(cache.bodies) && old(cache.bodies)[key] == got
               && QuietSince(cache.trace, |old(cache.trace)|, key)) ==> Visible()
    {
      hide Cache.FilesValid, Cache.FillsValid, Came, Unplaced;
      ghost var n := |cache.trace|;
      fault := *;
      if fault {
        cache.TakeBody(key, true);
        return;
      }
      RenameMeta();
      ghost var first := cache.trace;
      cache.Interfere(Mine());
      CameLater(first, cache.trace, key, id);
      ghost var second := cache.trace;
      Remember();
      QuietPart(cache.trace, n, second, |first|, key);
    }

    /** One read: more bytes, an error, or the end.  Only the end commits, and unless others touch
        the key meanwhile the next lookup then finds what was read. */
    method Read() returns (chunk: Bytes, end: bool, broken: bool, fault: bool)
      requires Settled()
      modifies this, cache
      ensures Settled() && got == old(got) + chunk && Grown(old(cache.Now()), cache.Now())
      ensures end ==> done && (old(onDone).Some? ==> old(onDone).value in cache.finished)
      ensures end && !old(done) ==> Response(key, meta.header, got) in cache.responses
      ensures end && !old(done) && !failed && !fault && QuietSince(cache.trace, |old(cache.trace)|, key) ==> Visible()
      ensures !end ==> done == old(done) && onDone == old(onDone) && cache.Now() == old(cache.Now())
    {
      chunk, end, broken, fault := [], *, *, false;
      if !done {
        chunk := *;
        var writeFails: bool := *;
        Take(chunk, writeFails);
      }
      if end { fault := Commit(); }
    }

    method Commit() returns (fault: bool)
      requires Settled()
      modifies this, cache
      ensures Settled() && done && got == old(got) && failed == old(failed)
      ensures Grown(old(cache.Now()), cache.Now())
      ensures old(onDone).Some? ==> old(onDone).value in cache.finished
      ensures !old(done) ==> Response(key, meta.header, got) in cache.responses
      ensures !old(done) && !failed && !fault && QuietSince(cache.trace, |old(cache.trace)|, key) ==> Visible()
    {
      hide Cache.FilesValid, Cache.FillsValid, Unplaced;
      fault := false;
      if done { return; }
      End();
      ghost var responses := cache.responses;
      assert responses[id] == Response(key, meta.header, got);
      if !failed { fault := Publish(); }
      assert cache.responses[id] == responses[id];
      Finish();
    }

    /** Giving up before the end leaves nothing behind. */
    method Close()
      requires Settled()
      modifies this, cache
      ensures Settled() && done && got == old(got)
      ensures cache.Disk() == old(cache.Disk()) && cache.responses == old(cache.responses)
      ensures cache.trace == old(cache.trace)
      ensures Grown(old(cache.Now()), cache.Now())
      ensures cache.finished == old(cache.finished) + old(Mine())
      ensures old(onDone).Some? ==> old(onDone).value in cache.keyOf && cache.keyOf[old(onDone).value] !in cache.fills
    {
      if !done {
        done := true;
        Finish();
      }
    }

    /** The fill this response stands for is over, once. */
    method Finish()
      requires cache.Valid() && (onDone.Some? ==> onDone.value in cache.keyOf)
      modifies `onDone, cache`fills, cache`finished
      ensures cache.Valid() && onDone.None?
      ensures cache.finished == old(cache.finished) + old(Mine())
      ensures old(onDone).Some? && old(onDone).value !in old(cache.finished) ==>
                cache.keyOf[old(onDone).value] !in cache.fills
    {
      if onDone.Some? {
        cache.FinishFill(onDone.value);
        onDone := None;
      }
    }
  }

  // ---------- a request ----------

  /** A hit carries the clock reading it was judged by, and where its headers and its body are from. */
  datatype Reply = Failed | Cached(served: Served, at: int, h: nat, b: nat) | Fresh(status: nat, writer: Writer?)

  ghost predicate Genuine(cache: Cache, key: string, now: int, reply: Reply)
    reads cache
  {
    reply.Cached? ==> now <= reply.at && cache.Honest(key, reply.served, reply.at, reply.h, reply.b)
  }

  /** Whatever the request leads will be finished when its body is closed, or is already. */
  ghost predicate Answers(cache: Cache, led: Option<nat>, reply: Reply)
    reads cache, if reply.Fresh? && reply.writer != null then {reply.writer} else {}
  {
    && (reply.Fresh? && reply.writer != null ==>
          reply.writer.cache == cache && reply.writer.Settled() && reply.status == STATUS_OK)
    && (led.Some? ==> led.value in cache.finished
                      || (reply.Fresh? && reply.writer != null && reply.writer.onDone == led))
  }

  method Finish(cache: Cache, fill: Option<nat>)
    requires cache.Valid() && (fill.Some? ==> fill.value in cache.keyOf)
    modifies cache`fills, cache`finished
    ensures cache.Valid() && (fill.Some? ==> fill.value in cache.finished)
  {
    if fill.Some? { cache.FinishFill(fill.value); }
  }

  /** Waiting ends when the fill does, or when the client goes away. */
  method WaitFill(cache: Cache, fill: nat) returns (over: bool)
    requires cache.Valid()
    modifies cache
    ensures cache.Valid() && Grown(old(cache.Now()), cache.Now())
    ensures over ==> fill in cache.finished
  {
    cache.Interfere({});
    over := *;
    over := over && fill in cache.finished;
  }

  /** The lookup: a hit, a failure while waiting, or a fetch to be made, with or without the lead. */
  method Lookup(cache: Cache, verb: Verb, ranged: bool, key: string, now: int)
    returns (reply: Option<Reply>, led: Option<nat>)
    requires cache.Valid()
    modifies cache
    ensures cache.Valid() && Grown(old(cache.Now()), cache.Now())
    ensures led.Some? ==> reply.None? && led.value in cache.keyOf && led.value !in cache.finished
    ensures reply.Some? ==> !reply.value.Fresh? && Genuine(cache, key, now, reply.value)
  {
    hide Cache.FilesValid, Cache.FillsValid, Cache.Honest, Aside, Untouched, QuietSince;
    reply, led := None, None;
    if verb == OtherVerb || ranged { return; }
    var hit, h, b, fault := cache.Get(verb, ranged, key, now, {});
    if hit.Some? { return Some(Cached(hit.value, now, h, b)), None; }
    cache.Interfere({});
    var fill, leader := cache.BeginFill(key);
    if leader { return None, fill; }
    reply := Await(cache, verb, ranged, key, now, fill.value);
  }

  /** Who does not lead waits for the fill and looks again; what still misses is fetched without the lead. */
  method Await(cache: Cache, verb: Verb, ranged: bool, key: string, now: int, fill: nat) returns (reply: Option<Reply>)
    requires cache.Valid()
    modifies cache
    ensures cache.Valid() && Grown(old(cache.Now()), cache.Now())
    ensures reply.Some? ==> !reply.value.Fresh? && Genuine(cache, key, now, reply.value)
    ensures reply.None? ==> fill in cache.finished
  {
    hide Cache.FilesValid, Cache.FillsValid, Cache.Honest, Aside, Untouched, QuietSince;
    var over := WaitFill(cache, fill);
    if !over { return Some(Failed); }
    var later: int :| now <= later;
    var hit, h, b, fault := cache.Get(verb, ranged, key, later, {});
    reply := if hit.Some? then Some(Cached(hit.value, later, h, b)) else None;
  }

  /** One upstream answer: an error, or a status and headers; others go on meanwhile. */
  method Fetch(cache: Cache, mine: set<nat>) returns (status: Option<nat>, header: string, cacheable: bool)
    requires cache.Valid() && mine !! cache.finished
    modifies cache
    ensures cache.Valid() && mine !! cache.finished && Grown(old(cache.Now()), cache.Now())
  {
    cache.Interfere(mine);
    status, header, cacheable := *, *, *;
  }

  /** A forbidden image is asked for again, and once more. */
  method FetchImage(cache: Cache, mine: set<nat>) returns (status: Option<nat>, header: string, cacheable: bool)
    requires cache.Valid() && mine !! cache.finished
    modifies cache
    ensures cache.Valid() && mine !! cache.finished && Grown(old(cache.Now()), cache.Now())
  {
    hide Cache.FilesValid, Cache.FillsValid;
    status, header, cacheable := Fetch(cache, mine);
    if status == Some(STATUS_FORBIDDEN) {
      status, header, cacheable := Fetch(cache, mine);
      if status == Some(STATUS_FORBIDDEN) {
        status, header, cacheable := Fetch(cache, mine);
      }
    }
  }

  predicate Storable(verb: Verb, ranged: bool, key: string, status: nat, cacheable: bool) {
    key != "" && verb == GET && !ranged && status == STATUS_OK && cacheable
  }

  /** The store wraps the body of an unranged GET answered 200 with an image, whoever leads, unless
      no temporary file can be made. */
  method WrapStore(cache: Cache, verb: Verb, ranged: bool, key: string, status: nat, header: string, cacheable: bool,
                   now: int, fill: Option<nat>) returns (writer: Writer?, fault: bool)
    requires cache.Valid()
    requires fill.Some? ==> fill.value in cache.keyOf && fill.value !in cache.finished
    ensures writer != null <==> Storable(verb, ranged, key, status, cacheable) && !fault
    ensures writer != null ==> fresh(writer) && writer.Settled() && !writer.done && !writer.failed && writer.got == []
    ensures writer != null ==> writer.cache == cache && writer.key == key && writer.onDone == fill
    ensures writer != null ==> writer.meta == Meta(key, status, header, now, now + cache.ttl)
  {
    fault := *;
    if !Storable(verb, ranged, key, status, cacheable) || fault { return null, fault; }
    writer := new Writer(cache, key, Meta(key, status, header, now, now + cache.ttl), fill);
  }

  /** An image request from lookup to response. */
  method Handle(cache: Cache, verb: Verb, ranged: bool, key: string, now: int) returns (reply: Reply, led: Option<nat>)
    requires cache.Valid()
    modifies cache
    ensures cache.Valid() && Answers(cache, led, reply) && Genuine(cache, key, now, reply)
    ensures reply.Fresh? && reply.writer != null ==> fresh(reply.writer) && reply.writer.key == key
  {
    var early: Option<Reply>;
    early, led := Lookup(cache, verb, ranged, key, now);
    if early.Some? { return early.value, None; }
    reply := Load(cache, verb, ranged, key, now, led);
  }

  method Load(cache: Cache, verb: Verb, ranged: bool, key: string, now: int, led: Option<nat>) returns (reply: Reply)
    requires cache.Valid() && (led.Some? ==> led.value in cache.keyOf && led.value !in cache.finished)
    modifies cache
    ensures cache.Valid() && Answers(cache, led, reply) && !reply.Cached?
    ensures reply.Fresh? && reply.writer != null ==> fresh(reply.writer) && reply.writer.key == key
  {
    hide Cache.FilesValid, Cache.FillsValid;
    var mine := if led.Some? then {led.value} else {};
    // the wait for one of the node's request slots
    cache.Interfere(mine);
    var slot: bool := *;
    reply := Failed;
    if slot {
      var status, header, cacheable := FetchImage(cache, mine);
      if status.Some? {
        var later: int :| now <= later;
        var writer, fault := WrapStore(cache, verb, ranged, key, status.value, header, cacheable, later, led);
        reply := Fresh(status.value, writer);
        if writer != null { return; }
      }
    }
    Finish(cache, led);
  }

  /** The client takes some of the body, perhaps all of it, while others go on, and the server closes
      it.  By then the fill the request led is over, whatever happened. */
  method Serve(cache: Cache, verb: Verb, ranged: bool, key: string, now: int) returns (reply: Reply, led: Option<nat>)
    requires cache.Valid()
    modifies cache
    ensures cache.Valid() && (led.Some? ==> led.value in cache.finished) && Genuine(cache, key, now, reply)
  {
    hide Cache.FilesValid, Cache.FillsValid, Cache.Honest;
    reply, led := Handle(cache, verb, ranged, key, now);
    if reply.Fresh? && reply.writer != null {
      var w: Writer := reply.writer;
      var end := false;
      var takes: nat :| 0 <= takes;
      while takes > 0 && !end
        invariant w.Settled() && w.cache == cache
        invariant led.Some? ==> led.value in cache.finished || w.onDone == led
        decreases takes
      {
        cache.Interfere(w.Mine());
        var chunk, ended, broken, fault := w.Read();
        end, takes := ended || broken, takes - 1;
      }
      cache.Interfere(w.Mine());
      w.Close();
    }
  }

  /** What was stored is found, byte for byte and with its own headers, by whoever looks before it
      expires, if nobody else touches the key and no file operation fails. */
  method StoredIsFound(w: Writer, now: int) returns (hit: Option<Served>, faults: bool)
    requires w.Settled() && !w.done && !w.failed && w.key != ""
    modifies w, w.cache
    ensures w.Settled()
    ensures (!faults && QuietSince(w.cache.trace, |old(w.cache.trace)|, w.key) && !w.cache.Expired(w.meta, now)) ==>
              hit == Some(Whole(w.meta, old(w.got))) || hit == Some(Unchanged(w.meta))
  {
    hide Cache.FilesValid, Cache.FillsValid, Cache.Honest;
    ghost var n := |w.cache.trace|;
    faults := w.Commit();
    ghost var first := w.cache.trace;
    w.cache.Interfere({});
    ghost var second := w.cache.trace;
    var h, b, fault;
    hit, h, b, fault := w.cache.Get(GET, false, w.key, now, {});
    faults := faults || fault;
    QuietPart(w.cache.trace, n, first, n, w.key);
    QuietPart(w.cache.trace, n, second, |first|, w.key);
    QuietPart(w.cache.trace, n, w.cache.trace, |second|, w.key);
  }

  // ---------- headers of one response over the body of another ----------

  /** A response answered in full, from its first byte to the end of its body. */
  method ReadAll(w: Writer, body: Bytes)
    requires w.Valid() && !w.done && !w.failed && w.got == []
    modifies w`file, w`failed, w`got, w`done, w`id, w.cache`responses
    ensures w.Valid() && w.Ended() && w.got == body && w.id == |old(w.cache.responses)| && Unplaced(w.cache.trace, w.id)
    ensures w.cache.responses == old(w.cache.responses) + [Response(w.key, w.meta.header, body)]
  {
    w.Take(body, false);
    w.End();
  }

  /** Two stores of one key at once: the leader's client goes away; the request that waited misses
      and stores without the lead, the next one misses, leads and stores as well. */
  method TwoStores(cache: Cache, key: string, ma: Meta, mb: Meta) returns (wa: Writer, wb: Writer)
    requires cache.Valid() && key != "" && key !in cache.fills && key !in cache.metas && key !in cache.remembered
    requires ma.key == key == mb.key && ma.status == STATUS_OK == mb.status
    modifies cache
    ensures cache.Disk() == old(cache.Disk()) && cache.responses == old(cache.responses)
    ensures cache.trace == old(cache.trace)
    ensures fresh(wa) && fresh(wb) && wa != wb && wa.cache == cache == wb.cache && wa.Valid() && wb.Valid()
    ensures wa.key == key == wb.key && wa.meta == ma && wb.meta == mb && wa.onDone.None? && wb.onDone.Some?
    ensures !wa.done && !wa.failed && wa.got == [] && !wb.done && !wb.failed && wb.got == []
  {
    hide Cache.FilesValid;
    var first, leads := cache.BeginFill(key);
    var awaited, waits := cache.BeginFill(key);
    assert leads && !waits && awaited == first;
    var gone := new Writer(cache, key, ma, first);
    gone.Close();
    assert awaited.value in cache.finished;
    wa := new Writer(cache, key, ma, None);
    var second, leadsToo := cache.BeginFill(key);
    assert leadsToo;
    wb := new Writer(cache, key, mb, second);
  }

  /** The renames of two stores interleave. */
  method RenamesInterleave(wa: Writer, wb: Writer)
    requires wa != wb && wa.cache == wb.cache && wa.key == wb.key && wa.Valid() && wb.Valid() && wa.Ended()
    requires wb.Ended()
    requires wa.id != wb.id && Unplaced(wa.cache.trace, wa.id) && Unplaced(wa.cache.trace, wb.id)
    modifies wa.cache`bodies, wa.cache`metas, wa.cache`remembered, wa.cache`trace
    ensures wa.Valid() && wb.Valid()
    ensures wa.cache.bodies == old(wa.cache.bodies)[wa.key := wb.got]
    ensures wa.cache.metas == old(wa.cache.metas)[wa.key := wa.meta]
    ensures wa.cache.remembered == old(wa.cache.remembered)[wa.key := wa.meta]
  {
    hide Cache.FilesValid, Cache.FillsValid, Came, Accounted, At;
    wa.RenameBody();
    ghost var placed := wa.cache.trace;
    hide Unplaced;
    wb.RenameBody();
    CameLater(placed, wa.cache.trace, wa.key, wa.id);
    HeadersInterleave(wa, wb);
  }

  method HeadersInterleave(wa: Writer, wb: Writer)
    requires wa != wb && wa.cache == wb.cache && wa.key == wb.key && wa.Valid() && wb.Valid()
    requires wa.Ended() && wb.Ended()
    requires Came(wa.cache.trace, wa.key, wa.id) && Came(wa.cache.trace, wa.key, wb.id)
    modifies wa.cache`metas, wa.cache`remembered, wa.cache`trace
    ensures wa.Valid() && wb.Valid()
    ensures wa.cache.metas == old(wa.cache.metas)[wa.key := wa.meta]
    ensures wa.cache.remembered == old(wa.cache.remembered)[wa.key := wa.meta]
  {
    hide Cache.FilesValid, Cache.FillsValid, Came, Accounted, At;
    ghost var placed := wa.cache.trace;
    wb.RenameMeta();
    wb.Remember();
    CameLater(placed, wa.cache.trace, wa.key, wa.id);
    wa.RenameMeta();
    wa.Remember();
  }

  /** From then on lookups show the headers of `a` over the body of `b`. */
  method HeadersMayBeAnothers(cache: Cache, key: string, a: Response, b: Response,
                              now: int) returns (hit: Option<Served>)
    requires cache.Valid() && cache.ttl > 0 && now > 0
    requires key != "" && key !in cache.fills && key !in cache.metas && key !in cache.remembered
    modifies cache
    ensures cache.Valid() && hit == Some(Whole(Meta(key, STATUS_OK, a.header, now, now + cache.ttl), b.body))
    ensures key in cache.remembered && cache.remembered[key] == hit.value.meta
    ensures key in cache.metas && cache.metas[key] == hit.value.meta
  {
    hide Cache.FilesValid, Cache.FillsValid, Unplaced, Came, Writer.Mine, Accounted, At;
    var wa, wb := TwoStores(cache, key, Meta(key, STATUS_OK, a.header, now, now + cache.ttl),
                                        Meta(key, STATUS_OK, b.header, now, now + cache.ttl));
    ReadAll(wa, a.body);
    ReadAll(wb, b.body);
    RenamesInterleave(wa, wb);
    wb.Finish();
    hit := cache.Showing(GET, key, cache.remembered[key], now, false);
  }

  /** A store without anyone in between. */
  method StoreAll(w: Writer, body: Bytes)
    requires w.Valid() && !w.done && !w.failed && w.got == []
    modifies w`file, w`failed, w`got, w`done, w`id
    modifies w.cache`responses, w.cache`bodies, w.cache`metas, w.cache`remembered, w.cache`trace
    ensures w.Valid() && w.cache.bodies == old(w.cache.bodies)[w.key := body]
    ensures w.cache.metas == old(w.cache.metas)[w.key := w.meta]
    ensures w.cache.remembered == old(w.cache.remembered)[w.key := w.meta]
    ensures Known(w.cache.responses, w.cache.trace, w.key, w.meta, w.id)
    ensures old(w.cache.responses) <= w.cache.responses && old(w.cache.trace) <= w.cache.trace
  {
    hide Cache.FilesValid, Cache.FillsValid, Came, Unplaced;
    ReadAll(w, body);
    w.RenameBody();
    w.RenameMeta();
    w.Remember();
  }

  /** A request that leads stores a response without anyone in between. */
  method LeadAndStore(cache: Cache, key: string, meta: Meta, body: Bytes) returns (id: nat)
    requires cache.Valid() && key != "" && key !in cache.fills && meta.key == key && meta.status == STATUS_OK
    modifies cache
    ensures cache.Valid() && key !in cache.fills && Grown(old(cache.Now()), cache.Now())
    ensures cache.bodies == old(cache.bodies)[key := body] && cache.metas == old(cache.metas)[key := meta]
    ensures cache.remembered == old(cache.remembered)[key := meta]
    ensures Known(cache.responses, cache.trace, key, meta, id)
  {
    hide Cache.FilesValid, Cache.FillsValid, Known;
    var fill, leads := cache.BeginFill(key);
    assert leads;
    var w := new Writer(cache, key, meta, fill);
    StoreAll(w, body);
    w.Finish();
    id := w.id;
  }

  /** Two stores in the lead and nothing ever removed do not exclude it either: a second request
      missed before the first store and takes the lead after it, and in the middle of its store a
      lookup shows the headers in memory over the new body. */
  method LeadersMix(cache: Cache, key: string, a: Response, b: Response, now: int) returns (hit: Option<Served>)
    requires cache.Valid() && cache.ttl > 0 && now > 0
    requires key != "" && key !in cache.fills && key !in cache.metas && key !in cache.remembered
    modifies cache
    ensures cache.Valid() && hit == Some(Whole(Meta(key, STATUS_OK, a.header, now, now + cache.ttl), b.body))
    ensures key in cache.remembered && cache.remembered[key] == hit.value.meta
    ensures key in cache.metas && cache.metas[key] == hit.value.meta
  {
    hide Cache.FilesValid, Cache.FillsValid, Came, Unplaced, Writer.Mine, Accounted, At, Grown, Known;
    // both requests have missed
    var ma := Meta(key, STATUS_OK, a.header, now, now + cache.ttl);
    var id := LeadAndStore(cache, key, ma, a.body);
    var fill, leads := cache.BeginFill(key);
    assert leads;
    var w := new Writer(cache, key, Meta(key, STATUS_OK, b.header, now, now + cache.ttl), fill);
    ReadAll(w, b.body);
    w.RenameBody();
    hit := cache.Showing(GET, key, cache.remembered[key], now, false);
  }

  /** The administrator clears the cache: both files of a key and its headers in memory. */
  method Clear(cache: Cache, key: string)
    requires cache.Valid()
    modifies cache`bodies, cache`metas, cache`remembered, cache`trace
    ensures cache.Valid() && key !in cache.bodies && key !in cache.metas && key !in cache.remembered
    ensures Grown(old(cache.Now()), cache.Now())
  {
    hide Cache.FilesValid, Cache.FillsValid;
    cache.TakeBody(key, true);
    cache.TakeMeta(key, true);
    cache.Drop(key, true);
  }

  /** The headers of a stored response are read from its file; then an administrator clears the
      cache and the next request leads and stores another response. */
  method ReadThenRefilled(cache: Cache, key: string, meta: Meta, body: Bytes, id: nat) returns (read: Meta)
    requires cache.Valid() && key != "" && key !in cache.fills && meta.key == key && meta.status == STATUS_OK
    requires key in cache.metas && Known(cache.responses, cache.trace, key, cache.metas[key], id)
    modifies cache
    ensures cache.Valid() && read == old(cache.metas)[key] && Known(cache.responses, cache.trace, key, read, id)
    ensures key in cache.bodies && cache.bodies[key] == body && key in cache.metas && cache.metas[key] == meta
  {
    hide Cache.FilesValid, Cache.FillsValid, Known, Grown;
    read := cache.metas[key];
    ghost var past := cache.Now();
    Clear(cache, key);
    ghost var cleared := cache.Now();
    var other := LeadAndStore(cache, key, meta, body);
    GrownThrough(past, cleared, cache.Now());
    KnownGrows(past, cache.Now(), key, read, id);
  }

  /** The same with every store in the lead: a slow lookup reads the headers of `a` from the file,
      an administrator clears the cache, the next request leads and stores `b`, and the lookup then
      finds a body and remembers the headers of `a`. */
  method SlowLookupMixes(cache: Cache, key: string, a: Response, b: Response, now: int) returns (hit: Option<Served>)
    requires cache.Valid() && cache.ttl > 0 && now > 0 && key != "" && key !in cache.fills
    modifies cache
    ensures cache.Valid() && hit == Some(Whole(Meta(key, STATUS_OK, a.header, now, now + cache.ttl), b.body))
    ensures key in cache.remembered && cache.remembered[key] == hit.value.meta
    ensures key in cache.metas && cache.metas[key].header == b.header
  {
    hide Cache.FilesValid, Cache.FillsValid, Came, Grown;
    var id := LeadAndStore(cache, key, Meta(key, STATUS_OK, a.header, now, now + cache.ttl), a.body);
    // a minute later the entry in memory is not believed any more
    Expire(cache, key, id);
    var read := ReadThenRefilled(cache, key, Meta(key, STATUS_OK, b.header, now, now + cache.ttl), b.body, id);
    // the body is there
    cache.Keep(key, read, id, true);
    hit := cache.Showing(GET, key, cache.remembered[key], now, false);
  }

  /** The headers in memory are forgotten; the files stay. */
  method Expire(cache: Cache, key: string, id: nat)
    requires cache.Valid() && key in cache.metas && Known(cache.responses, cache.trace, key, cache.metas[key], id)
    modifies cache`remembered, cache`trace
    ensures cache.Valid() && Known(cache.responses, cache.trace, key, cache.metas[key], id)
  {
    hide Cache.FilesValid, Cache.FillsValid, Came;
    ghost var t := cache.trace;
    cache.Drop(key, true);
    CameLater(t, cache.trace, key, id);
  }
}
