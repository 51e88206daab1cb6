/** The server's table of sessions: issued ids, the cap, and eviction of the least recently used. */
module SessionTable {
  type SessionId = string

  /** A session as the table sees it: which object it is, and when it was last used. */
  datatype Session = Session(address: nat, lastAccess: int)

  datatype Found = Found(id: SessionId, session: Session) | NotFound

  /** `kept` is what is left of `all` when its least recently used sessions make room until fewer than `cap` remain. */
  ghost predicate Evicted(all: map<SessionId, Session>, kept: map<SessionId, Session>, cap: nat) {
    && kept.Keys <= all.Keys
    && (forall id | id in kept :: kept[id] == all[id])
    && |kept| == (if |all| < cap then |all| else cap - 1)
    && (forall gone, id | gone in all && gone !in kept && id in kept :: all[gone].lastAccess <= all[id].lastAccess)
  }

  class Sessions {
    var sessions: map<SessionId, Session>
    var cap: nat

    ghost predicate Valid()
      reads this
    {
      cap >= 1
    }

    constructor ()
      ensures Valid() && sessions == map[] && cap == 10000
    {
      sessions, cap := map[], 10000;
    }

    /** `set_max_sessions`: a cap of at least one, whatever is asked for. */
    method SetCap(limit: nat)
      modifies this`cap
      ensures Valid() && cap == (if limit < 1 then 1 else limit)
    {
      cap := if limit < 1 then 1 else limit;
    }

    /** The least recently used session, by a scan of the table in any order. */
    method Oldest() returns (oldest: SessionId)
      requires sessions != map[]
      ensures oldest in sessions
      ensures forall id | id in sessions :: sessions[oldest].lastAccess <= sessions[id].lastAccess
    {
      oldest :| oldest in sessions;
      var rest := sessions.Keys;
      while rest != {}
        invariant rest <= sessions.Keys && oldest in sessions
        invariant forall id | id in sessions && id !in rest :: sessions[oldest].lastAccess <= sessions[id].lastAccess
      {
        var it :| it in rest;
        if sessions[it].lastAccess < sessions[oldest].lastAccess {
          oldest := it;
        }
        rest := rest - {it};
      }
    }

    /** At the cap, the least recently used sessions make room for one more. */
    method MakeRoom()
      requires Valid()
      modifies this`sessions
      ensures Evicted(old(sessions), sessions, cap)
    {
      while sessions != map[] && |sessions| >= cap
        invariant sessions.Keys <= old(sessions).Keys
        invariant forall id | id in sessions :: sessions[id] == old(sessions)[id]
        invariant |sessions| == |old(sessions)| || (|old(sessions)| >= cap && cap - 1 <= |sessions|)
        invariant forall gone, id | gone in old(sessions) && gone !in sessions && id in sessions ::
                    old(sessions)[gone].lastAccess <= old(sessions)[id].lastAccess
        decreases |sessions|
      {
        var oldest := Oldest();
        ghost var before := sessions;
        sessions := sessions - {oldest};
        assert before == sessions[oldest := before[oldest]];
      }
    }

    /**
     * The session a request names, marked as used at `now`; a new one, under the first id drawn that no session has,
     * for an empty id. `draw` stands for the random ids, and draw `unused` is one that no session has.
     */
    method GetOrCreate(id: SessionId, now: int, address: nat, draw: nat -> SessionId, ghost unused: nat)
      returns (found: Found)
      requires Valid()
      requires draw(unused) !in sessions
      modifies this`sessions
      ensures id != "" && id !in old(sessions) ==> found == NotFound && sessions == old(sessions)
      ensures id != "" && id in old(sessions) ==>
                && found == Found(id, old(sessions)[id].(lastAccess := now))
                && sessions == old(sessions)[id := found.session]
      ensures id == "" ==>
                && found.Found? && found.session == Session(address, now)
                && (exists kept | Evicted(old(sessions), kept, cap) ::
                      found.id !in kept && sessions == kept[found.id := found.session])
                && |sessions| <= cap
    {
      if id != "" {
        if id !in sessions {
          return NotFound;
        }
        found := Found(id, sessions[id].(lastAccess := now));
        sessions := sessions[id := found.session];
        return;
      }
      MakeRoom();
      ghost var kept := sessions;
      var k := 0;
      while draw(k) in sessions
        invariant k <= unused
        decreases unused - k
      {
        k := k + 1;
      }
      found := Found(draw(k), Session(address, now));
      sessions := sessions[found.id := found.session];
    }
  }
}
