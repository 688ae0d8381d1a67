/** Administrator sessions: cookies that replace one another form a family, of which one is active. */
module AuthSessions {
  import opened Wrappers

  const SESSION_TTL := 12 * 60 * 60

  datatype Session = Session(key: string, expiresAt: int)

  datatype SessionRecord = SessionRecord(expiresAt: int, family: string, active: bool)

  datatype Setup = Setup(sessionKey: string, secret: string, expiresAt: int)

  /** A family has one active member at most, and all its members expire together. */
  ghost predicate OneActive(sessions: map<string, SessionRecord>) {
    forall a <- sessions, b <- sessions :: sessions[a].family == sessions[b].family ==>
      && sessions[a].expiresAt == sessions[b].expiresAt
      && (sessions[a].active && sessions[b].active ==> a == b)
  }

  /** Every record belongs to a cookie that was issued, in its family, and no family is older than the clock allows. */
  ghost predicate Issued(sessions: map<string, SessionRecord>, issued: map<string, string>, clock: int) {
    (forall k <- sessions ::
       k in issued && issued[k] == sessions[k].family && sessions[k].expiresAt <= clock + SESSION_TTL)
    && forall k <- issued :: issued[k] in issued && issued[issued[k]] == issued[k]
  }

  /** While a member of a family has not expired, every cookie ever issued in it has its record. */
  ghost predicate Complete(sessions: map<string, SessionRecord>, issued: map<string, string>, clock: int) {
    forall k <- sessions, c <- issued ::
      sessions[k].expiresAt > clock && issued[c] == sessions[k].family ==> c in sessions
  }

  /** A record that has expired may go. */
  function Live(sessions: map<string, SessionRecord>, now: int): map<string, SessionRecord> {
    map k | k in sessions && now < sessions[k].expiresAt :: sessions[k]
  }

  /** Some expired records have gone, nothing else has happened. */
  ghost predicate Dropped(sessions: map<string, SessionRecord>, fewer: map<string, SessionRecord>, now: int) {
    && (forall k <- fewer :: k in sessions && fewer[k] == sessions[k])
    && forall k <- sessions :: k in fewer || sessions[k].expiresAt <= now
  }

  lemma DroppedTwice(a: map<string, SessionRecord>, b: map<string, SessionRecord>, c: map<string, SessionRecord>,
                     early: int, now: int)
    requires Dropped(a, b, early) && Dropped(b, c, now) && early <= now
    ensures Dropped(a, c, now)
  {
  }

  /** Which hurts nobody: members of a family expire together. */
  lemma DroppingIsSafe(sessions: map<string, SessionRecord>, fewer: map<string, SessionRecord>,
                       issued: map<string, string>, clock: int, now: int)
    requires Dropped(sessions, fewer, now) && clock <= now
    requires OneActive(sessions) && Issued(sessions, issued, clock)
    ensures OneActive(fewer) && Issued(fewer, issued, now) && Live(fewer, now) == Live(sessions, now)
    ensures Complete(sessions, issued, clock) ==> Complete(fewer, issued, now)
  {
    if Complete(sessions, issued, clock) {
      forall k <- fewer, c <- issued | fewer[k].expiresAt > now && issued[c] == fewer[k].family ensures c in fewer {
        assert k in sessions && c in sessions && sessions[c].family == sessions[k].family;
      }
    }
  }

  /** What replacing every session makes of one record. */
  function Replaced(r: SessionRecord, session: Session, family: string): SessionRecord {
    SessionRecord(if r.family == family && r.expiresAt < session.expiresAt then session.expiresAt else r.expiresAt,
                  r.family, false)
  }

  /** The whole table after the replacement. */
  function ReplacedAll(sessions: map<string, SessionRecord>, session: Session, family: string,
                       now: int): map<string, SessionRecord> {
    (map k | k in sessions && (sessions[k].family == family || now < sessions[k].expiresAt)
       :: Replaced(sessions[k], session, family))
    [session.key := SessionRecord(session.expiresAt, family, true)]
  }

  lemma ReplacementKeepsOneActive(sessions: map<string, SessionRecord>, session: Session, family: string, now: int)
    requires OneActive(sessions) && session.key !in sessions
    requires forall k <- sessions :: sessions[k].family == family ==> sessions[k].expiresAt <= session.expiresAt
    ensures OneActive(ReplacedAll(sessions, session, family, now))
    ensures forall k <- ReplacedAll(sessions, session, family, now) ::
              ReplacedAll(sessions, session, family, now)[k].active ==> k == session.key
  {
  }

  lemma ReplacementKeepsIssued(sessions: map<string, SessionRecord>, issued: map<string, string>, session: Session,
                               family: string, now: int, clock: int)
    requires Issued(sessions, issued, clock) && clock <= now && session.key !in issued
    requires session.expiresAt <= now + SESSION_TTL
    requires family in issued && issued[family] == family
    ensures Issued(ReplacedAll(sessions, session, family, now), issued[session.key := family], now)
  {
  }

  /** Replacing keeps every family complete exactly when no cookie of the family being renewed has
      lost its record by then. */
  lemma ReplacementKeepsComplete(sessions: map<string, SessionRecord>, issued: map<string, string>, session: Session,
                                 family: string, now: int, clock: int)
    requires OneActive(sessions) && Complete(sessions, issued, clock) && clock <= now < session.expiresAt
    requires session.key !in issued && forall k <- sessions :: k in issued && issued[k] == sessions[k].family
    ensures Complete(ReplacedAll(sessions, session, family, now), issued[session.key := family], now)
            <==> forall c <- issued :: issued[c] == family ==> c in sessions
  {
    var after, cookies := ReplacedAll(sessions, session, family, now), issued[session.key := family];
    if Complete(after, cookies, now) {
      forall c <- issued | issued[c] == family ensures c in sessions {
        assert session.key in after && c in cookies;
      }
    }
    if forall c <- issued :: issued[c] == family ==> c in sessions {
      forall k <- after, c <- cookies | after[k].expiresAt > now && cookies[c] == after[k].family ensures c in after {
        if c != session.key && after[k].family != family {
          assert k in sessions && sessions[k].expiresAt > now && c in sessions;
          assert sessions[c].family == sessions[k].family;
        }
      }
    }
  }

  /** A renewal authorised by a session that had not expired at the check, with expired records
      dropped up to the replacement: every cookie keeps its record exactly when none of the family's
      was dropped, so always when the session has not expired by then either. */
  lemma RenewalKeepsComplete(sessions: map<string, SessionRecord>, fewer: map<string, SessionRecord>,
                             issued: map<string, string>, key: string, session: Session, clock: int, now: int)
    requires OneActive(sessions) && Issued(sessions, issued, clock) && Complete(sessions, issued, clock)
    requires key in sessions && clock < sessions[key].expiresAt
    requires Dropped(sessions, fewer, now) && clock <= now < session.expiresAt && session.key !in issued
    ensures var family := sessions[key].family;
            Complete(ReplacedAll(fewer, session, family, now), issued[session.key := family], now)
            <==> forall k <- sessions :: sessions[k].family == family ==> k in fewer
    ensures var family := sessions[key].family;
            now < sessions[key].expiresAt ==>
              Complete(ReplacedAll(fewer, session, family, now), issued[session.key := family], now)
  {
    var family := sessions[key].family;
    DroppingIsSafe(sessions, fewer, issued, clock, now);
    ReplacementKeepsComplete(fewer, issued, session, family, now, now);
    forall c <- issued | issued[c] == family ensures c in sessions && sessions[c].family == family {}
    forall k <- sessions | sessions[k].family == family ensures k in issued && issued[k] == family {}
    hide Complete, Issued, ReplacedAll;
    if now < sessions[key].expiresAt {
      forall k <- sessions | sessions[k].family == family ensures k in fewer {
        assert sessions[k].expiresAt == sessions[key].expiresAt;
      }
    }
  }

  /** The family after a logout. */
  function LoggedOut(sessions: map<string, SessionRecord>, family: string): map<string, SessionRecord> {
    map k | k in sessions :: if sessions[k].family == family then sessions[k].(active := false) else sessions[k]
  }

  class SessionTable {
    var sessions: map<string, SessionRecord>
    var setups: map<string, Setup>
    // every cookie ever issued, with its family; no call has read a later time
    ghost var issued: map<string, string>
    ghost var clock: int

    ghost predicate Valid()
      reads this
    {
      OneActive(sessions) && Issued(sessions, issued, clock)
    }

    ghost predicate Whole()
      reads this
    {
      Complete(sessions, issued, clock)
    }

    /** A cookie that opens the administration. */
    ghost predicate Opens(key: string, now: int)
      reads `sessions
    {
      key in sessions && now < sessions[key].expiresAt && sessions[key].active
    }

    constructor ()
      ensures Valid() && Whole() && sessions == map[] && setups == map[] && issued == map[] && clock == 0
    {
      sessions, setups, issued, clock := map[], map[], map[], 0;
    }

    method CleanupSessions(now: int)
      requires Valid() && now >= clock
      modifies `sessions, `clock
      ensures Valid() && clock == now && sessions == Live(old(sessions), now) && (old(Whole()) ==> Whole())
      ensures Dropped(old(sessions), sessions, now)
    {
      assert Dropped(sessions, Live(sessions, now), now);
      DroppingIsSafe(sessions, Live(sessions, now), issued, clock, now);
      hide OneActive, Issued, Complete, Dropped;
      sessions := map k | k in sessions && now < sessions[k].expiresAt :: sessions[k];
      clock := now;
    }

    method CleanupSetups(now: int)
      modifies `setups
      ensures setups == map i | i in old(setups) && now < old(setups)[i].expiresAt :: old(setups)[i]
    {
      setups := map i | i in setups && now < setups[i].expiresAt :: setups[i];
    }

    /** A login starts a family of its own.  The key is the hash of a fresh random token. */
    method Create(key: string, created: int, now: int) returns (session: Session)
      requires Valid() && clock <= created <= now && key !in issued
      modifies `sessions, `issued, `clock
      ensures Valid() && clock == now && (old(Whole()) ==> Whole())
      ensures session == Session(key, created + SESSION_TTL) && issued == old(issued)[key := key]
      ensures sessions == Live(old(sessions), now)[key := SessionRecord(session.expiresAt, key, true)]
    {
      session := Session(key, created + SESSION_TTL);
      CleanupSessions(now);
      sessions := sessions[key := SessionRecord(session.expiresAt, key, true)];
      issued := issued[key := key];
    }

    method Forget(key: string, now: int)
      requires Valid() && now >= clock && (key in sessions ==> sessions[key].expiresAt <= now)
      modifies `sessions, `clock
      ensures Valid() && clock == now && (old(Whole()) ==> Whole())
      ensures sessions == old(sessions) - {key} && Dropped(old(sessions), sessions, now)
    {
      assert Dropped(sessions, sessions - {key}, now);
      DroppingIsSafe(sessions, sessions - {key}, issued, clock, now);
      hide OneActive, Issued, Complete, Dropped;
      sessions := sessions - {key};
      clock := now;
    }

    /** An expired record is dropped on sight; now and then all expired ones are. */
    method ActiveFamily(key: string, now: int) returns (family: Option<string>)
      requires Valid() && now >= clock
      modifies `sessions, `setups, `clock
      ensures Valid() && clock == now && (old(Whole()) ==> Whole())
      ensures family == if old(Opens(key, now)) then Some(old(sessions)[key].family) else None
      ensures Dropped(old(sessions), sessions, now) && issued == old(issued)
      ensures key in sessions ==> now < sessions[key].expiresAt
    {
      ghost var was := sessions;
      family := if key in sessions && now < sessions[key].expiresAt && sessions[key].active
                then Some(sessions[key].family) else None;
      hide OneActive, Issued, Complete, Dropped;
      if key in sessions && now >= sessions[key].expiresAt {
        Forget(key, now);
      } else {
        Unchanged(now);
      }
      var sweep: bool := *;
      if sweep {
        ghost var between := sessions;
        Sweep(now);
        DroppedTwice(was, between, sessions, now, now);
      }
    }

    method Sweep(now: int)
      requires Valid() && now >= clock
      modifies `sessions, `setups, `clock
      ensures Valid() && clock == now && (old(Whole()) ==> Whole()) && Dropped(old(sessions), sessions, now)
    {
      CleanupSessions(now);
      CleanupSetups(now);
    }

    ghost method Unchanged(now: int)
      requires Valid() && now >= clock
      modifies `clock
      ensures Valid() && clock == now && (old(Whole()) ==> Whole()) && Dropped(sessions, sessions, now)
    {
      assert Dropped(sessions, sessions, now);
      DroppingIsSafe(sessions, sessions, issued, clock, now);
      clock := now;
    }

    /** A renewed session takes over its family; every other session stops being active. */
    method ReplaceAll(session: Session, family: string, now: int)
      requires Valid() && now >= clock && session.key !in issued && family in issued && issued[family] == family
      requires clock < session.expiresAt <= now + SESSION_TTL
      requires forall k <- sessions :: sessions[k].family == family ==> sessions[k].expiresAt <= session.expiresAt
      modifies this
      ensures Valid() && clock == now && setups == map[] && issued == old(issued)[session.key := family]
      ensures sessions == ReplacedAll(old(sessions), session, family, now)
      ensures forall k <- sessions :: sessions[k].active ==> k == session.key
    {
      ReplacementKeepsOneActive(sessions, session, family, now);
      ReplacementKeepsIssued(sessions, issued, session, family, now, clock);
      hide OneActive, Issued;
      ghost var was := sessions;
      Deactivate(session, family, now);
      sessions := sessions[session.key := SessionRecord(session.expiresAt, family, true)];
      assert sessions == ReplacedAll(was, session, family, now);
      setups, issued, clock := map[], issued[session.key := family], now;
    }

    /** The loop over every record. */
    method Deactivate(session: Session, family: string, now: int)
      modifies `sessions
      ensures sessions == map k | k in old(sessions) &&
                                  (old(sessions)[k].family == family || now < old(sessions)[k].expiresAt) ::
                            Replaced(old(sessions)[k], session, family)
    {
      var left := sessions.Keys;
      ghost var was := sessions;
      while left != {}
        invariant left <= was.Keys && sessions.Keys <= was.Keys
        invariant forall k <- left :: k in sessions && sessions[k] == was[k]
        invariant forall k <- was :: k !in left ==>
                    if was[k].family == family || now < was[k].expiresAt
                    then k in sessions && sessions[k] == Replaced(was[k], session, family) else k !in sessions
      {
        var k: string :| k in left;
        left := left - {k};
        var record := sessions[k];
        if record.family == family {
          if record.expiresAt < session.expiresAt { record := record.(expiresAt := session.expiresAt); }
        } else if record.expiresAt <= now {
          sessions := sessions - {k};
          continue;
        }
        sessions := sessions[k := record.(active := false)];
      }
    }

    method DropSetups(family: string)
      modifies `setups
      ensures setups == map i | i in old(setups) &&
                          !(old(setups)[i].sessionKey in old(sessions)
                            && old(sessions)[old(setups)[i].sessionKey].family == family) ::
                          old(setups)[i]
    {
      setups := map i | i in setups &&
                        !(setups[i].sessionKey in sessions && sessions[setups[i].sessionKey].family == family) ::
                  setups[i];
    }

    method LogoutFamily(family: string, now: int)
      requires Valid() && now >= clock
      modifies this
      ensures Valid() && clock == now && (old(Whole()) ==> Whole()) && issued == old(issued)
      ensures sessions == LoggedOut(old(sessions), family)
      ensures setups == map i | i in old(setups) &&
                          !(old(setups)[i].sessionKey in old(sessions)
                            && old(sessions)[old(setups)[i].sessionKey].family == family) ::
                          old(setups)[i]
    {
      LogoutIsSafe(sessions, family, issued, clock, now);
      hide OneActive, Issued, Complete, LoggedOut;
      DropSetups(family);
      sessions := LoggedOut(sessions, family);
      clock := now;
    }

    /** Signing out ends the whole family, whichever of its cookies is shown. */
    method Logout(key: string, now: int)
      requires Valid() && now >= clock
      modifies this
      ensures Valid() && clock == now && (old(Whole()) ==> Whole()) && issued == old(issued)
      ensures sessions == if key in old(sessions) && now < old(sessions)[key].expiresAt
                          then LoggedOut(old(sessions), old(sessions)[key].family) else old(sessions) - {key}
      ensures forall i <- setups :: i in old(setups) && setups[i] == old(setups)[i] && setups[i].sessionKey != key
    {
      hide OneActive, Issued, Complete, LoggedOut;
      if key !in sessions || now >= sessions[key].expiresAt {
        Forget(key, now);
        setups := map i | i in setups && setups[i].sessionKey != key :: setups[i];
      } else {
        LogoutFamily(sessions[key].family, now);
      }
    }

    /** What a logout is for: with any cookie of an unexpired family, none of them opens anything
        any more, and no other family notices. */
    lemma LogoutEndsFamily(key: string, now: int, other: string)
      requires Valid() && Whole() && now >= clock && key in issued && other in issued
      requires exists k <- sessions :: sessions[k].family == issued[key] && now < sessions[k].expiresAt
      ensures key in sessions && now < sessions[key].expiresAt && sessions[key].family == issued[key]
      ensures var after := LoggedOut(sessions, issued[key]);
              if issued[other] == issued[key] then other in after && !after[other].active
              else (other in after <==> other in sessions) && (other in sessions ==> after[other] == sessions[other])
    {
      var k :| k in sessions && sessions[k].family == issued[key] && now < sessions[k].expiresAt;
      assert key in sessions;
    }

    /** Other requests look sessions up without waiting for a renewal. */
    method OthersLookUp(since: int, now: int)
      requires Valid() && clock <= since <= now
      modifies `sessions, `setups, `clock
      ensures Valid() && clock <= now && (old(Whole()) ==> Whole()) && Dropped(old(sessions), sessions, now)
    {
      ghost var was := sessions;
      assert Dropped(was, sessions, now);
      var n: nat :| 0 <= n;
      var last := since;
      for i := 0 to n
        invariant Valid() && clock <= last <= now && (old(Whole()) ==> Whole()) && Dropped(was, sessions, now)
      {
        var key: string := *;
        var at: int :| last <= at <= now;
        ghost var between := sessions;
        var family := ActiveFamily(key, at);
        last := at;
        assert Dropped(between, sessions, now);
        hide OneActive, Issued, Complete, Dropped;
        DroppedTwice(was, between, sessions, now, now);
      }
    }

    /** Confirming or disabling two-factor authentication: the session is checked, later it is
        replaced, and in between other requests look sessions up. */
    method Renew(key: string, next: string, checked: int, created: int, now: int) returns (renewed: bool)
      requires Valid() && clock <= checked <= created <= now < created + SESSION_TTL && next !in issued
      modifies this
      ensures Valid() && clock <= now && (renewed ==> old(Opens(key, checked)))
      ensures if renewed then issued == old(issued)[next := old(sessions)[key].family] && setups == map[]
              else issued == old(issued)
      ensures renewed ==> Opens(next, now) && forall k <- sessions :: sessions[k].active ==> k == next
      ensures old(Whole()) && (renewed ==> now < old(sessions)[key].expiresAt) ==> Whole()
    {
      var family := ActiveFamily(key, checked);
      // the code may be wrong, and the store may fail
      var confirmed: bool := *;
      renewed := family.Some? && confirmed;
      if renewed {
        ghost var between := sessions;
        OthersLookUp(checked, now);
        ReplaceFamily(key, Session(next, created + SESSION_TTL), family.value, now);
      }
    }

    /** The replacement, when the record that authorised it may have gone meanwhile. */
    method ReplaceFamily(ghost key: string, session: Session, family: string, now: int)
      requires Valid() && now >= clock && session.key !in issued && key in issued && issued[key] == family
      requires now < session.expiresAt <= now + SESSION_TTL
      requires forall k <- sessions :: sessions[k].expiresAt <= session.expiresAt
      modifies this
      ensures Valid() && clock == now && setups == map[] && issued == old(issued)[session.key := family]
      ensures sessions == ReplacedAll(old(sessions), session, family, now)
      ensures Opens(session.key, now) && forall k <- sessions :: sessions[k].active ==> k == session.key
      ensures old(Whole()) ==> (Whole() <==> forall c <- old(issued) :: old(issued)[c] == family ==> c in old(sessions))
    {
      if Whole() { ReplacementKeepsComplete(sessions, issued, session, family, now, clock); }
      ReplaceAll(session, family, now);
    }
  }

  /** A login and a renewal a second later, so that both cookies expire at one moment.  A second
      renewal is checked a second before that, the first cookie is looked up, and dropped, when it has
      come, and only then is the family replaced: it lives on, and its first cookie has no record. */
  method LateRenewalLosesACookie(first: string, second: string, third: string, start: int)
    returns (table: SessionTable)
    requires first != second && second != third && third != first && start >= 0
    ensures fresh(table) && table.Valid() && !table.Whole()
    ensures first in table.issued && third in table.issued && table.issued[first] == table.issued[third]
    ensures first !in table.sessions && table.Opens(third, table.clock)
  {
    hide OneActive, Issued, Complete;
    table := new SessionTable();
    var session := table.Create(first, start, start);
    var family := table.ActiveFamily(first, start + 1);
    table.ReplaceFamily(first, Session(second, start + 1 + SESSION_TTL), first, start + 1);
    var end := start + 1 + SESSION_TTL;
    family := table.ActiveFamily(second, end - 1);
    assert family == Some(first);
    var none := table.ActiveFamily(first, end);
    table.ReplaceFamily(second, Session(third, end - 1 + SESSION_TTL), first, end);
  }

  lemma LogoutIsSafe(sessions: map<string, SessionRecord>, family: string, issued: map<string, string>, clock: int,
                     now: int)
    requires OneActive(sessions) && Issued(sessions, issued, clock) && clock <= now
    ensures OneActive(LoggedOut(sessions, family)) && Issued(LoggedOut(sessions, family), issued, now)
    ensures Complete(sessions, issued, clock) ==> Complete(LoggedOut(sessions, family), issued, now)
  {
  }
}
