/** The session map: a cursor stays reachable only while its stream can go on. */
module CursorSessions {
  import opened Common
  import opened Driver
  import opened CursorStream

  datatype CursorSession<Row> = CursorSession(
    connectionId: string, userId: string, cursor: DriverCursor<Row>, position: nat, lastUsed: int)

  datatype SessionError = NotFound | TooManySessions | TooManyOnConnection

  /** Sessions on one connection. */
  function SessionsOn<Row>(sessions: map<string, CursorSession<Row>>, connectionId: string): set<string> {
    set id | id in sessions && sessions[id].connectionId == connectionId
  }

  lemma CountOne<Row>(sessions: map<string, CursorSession<Row>>, connectionId: string, left: set<string>, id: string)
    requires id in left && id in sessions
    ensures |SessionsOn(sessions, connectionId) - (left - {id})|
         == |SessionsOn(sessions, connectionId) - left| + if sessions[id].connectionId == connectionId then 1 else 0
  {
    var on := SessionsOn(sessions, connectionId);
    assert on - (left - {id}) == (on - left) + (if id in on then {id} else {});
  }

  class CursorSessionService<Row> {
    var sessions: map<string, CursorSession<Row>>
    const maxRows: int
    const maxSessions: int
    const maxPerConnection: int
    const idleMs: int

    constructor (maxRows: int, maxSessions: int, maxPerConnection: int, idleMs: int)
      ensures sessions == map[] && Valid()
      ensures this.maxRows == maxRows && this.maxSessions == maxSessions
      ensures this.maxPerConnection == maxPerConnection && this.idleMs == idleMs
    {
      this.sessions := map[];
      this.maxRows, this.maxSessions, this.maxPerConnection, this.idleMs :=
        maxRows, maxSessions, maxPerConnection, idleMs;
    }

    /** Each session's position is its cursor's, and no two sessions share a cursor. */
    ghost predicate Valid()
      reads this, set id | id in sessions :: sessions[id].cursor
    {
      && (forall id :: id in sessions ==>
          sessions[id].cursor.Valid() && sessions[id].position == sessions[id].cursor.position)
      && (forall a, b :: a in sessions && b in sessions && a != b ==> sessions[a].cursor != sessions[b].cursor)
    }

    method AssertCapacity(connectionId: string) returns (refused: Option<SessionError>)
      ensures refused == if |sessions| >= maxSessions then Some(TooManySessions)
                         else if |SessionsOn(sessions, connectionId)| >= maxPerConnection then Some(TooManyOnConnection)
                         else None
    {
      if |sessions| >= maxSessions {
        return Some(TooManySessions);
      }
      var perConnection := 0;
      var left := sessions.Keys;
      while left != {}
        invariant left <= sessions.Keys
        invariant perConnection == |SessionsOn(sessions, connectionId) - left|
        decreases left
      {
        hide SessionsOn;
        var id :| id in left;
        CountOne(sessions, connectionId, left, id);
        if sessions[id].connectionId == connectionId {
          perConnection := perConnection + 1;
        }
        left := left - {id};
      }
      assert SessionsOn(sessions, connectionId) - {} == SessionsOn(sessions, connectionId);
      return if perConnection >= maxPerConnection then Some(TooManyOnConnection) else None;
    }

    /** The first block of a cursor just opened; a stream that has not ended gets a session. */
    method Open(connectionId: string, userId: string, cursor: DriverCursor<Row>, sessionId: string, now: int)
      returns (b: Block<Row>)
      requires Valid() && cursor.Valid() && cursor.position == 0
      requires sessionId !in sessions && forall id :: id in sessions ==> sessions[id].cursor != cursor
      modifies this, cursor
      ensures Valid() && OpenAnswer(cursor.result, maxRows, b)
      ensures b.complete ==> sessions == old(sessions)
      ensures !b.complete ==>
              sessions == old(sessions)[sessionId := CursorSession(connectionId, userId, cursor, |b.rows|, now)]
    {
      var rows, complete := cursor.Fetch(QUERY_PAGE_SIZE);
      var truncated := !complete && |rows| >= maxRows;
      var ended := complete || truncated;
      if !ended {
        sessions := sessions[sessionId := CursorSession(connectionId, userId, cursor, |rows|, now)];
      }
      return Block(rows, ended, truncated);
    }

    /** The next block of a session, which is gone from the map as soon as completion is reported. */
    method Fetch(connectionId: string, userId: string, sessionId: string, limit: nat, now: int)
      returns (r: Result<Block<Row>, SessionError>)
      requires Valid()
      modifies this, if sessionId in sessions then {sessions[sessionId].cursor} else {}
      ensures Valid()
      ensures r.Err? <==> (sessionId !in old(sessions) || old(sessions)[sessionId].connectionId != connectionId
                           || old(sessions)[sessionId].userId != userId)
      ensures r.Err? ==> r.error == NotFound && sessions == old(sessions)
      ensures r.Ok? ==>
                var s := old(sessions)[sessionId];
                && FetchAnswer(s.cursor.result, s.position, limit, maxRows, r.value)
                && (r.value.complete ==> sessions == old(sessions) - {sessionId})
                && (!r.value.complete ==>
                      var moved := s.(position := s.position + |r.value.rows|, lastUsed := now);
                      sessions == old(sessions)[sessionId := moved])
    {
      hide FetchAnswer, Valid;
      if sessionId !in sessions || sessions[sessionId].connectionId != connectionId
        || sessions[sessionId].userId != userId {
        return Err(NotFound);
      }
      var b := Advance(sessionId, limit, now);
      if b.complete {
        CloseSession(sessionId);
        assert sessions == old(sessions) - {sessionId};
      }
      return Ok(b);
    }

    /** Serves the next block of a session and moves its position along. */
    method Advance(sessionId: string, limit: nat, now: int) returns (b: Block<Row>)
      requires Valid() && sessionId in sessions
      modifies this, sessions[sessionId].cursor
      ensures Valid()
      ensures var s := old(sessions)[sessionId];
              && FetchAnswer(s.cursor.result, s.position, limit, maxRows, b)
              && sessions == old(sessions)[sessionId := s.(position := s.position + |b.rows|, lastUsed := now)]
    {
      hide FetchAnswer;
      var session := sessions[sessionId].(lastUsed := now);
      b := ReadBlock(session.cursor, session.position, limit);
      session := session.(position := session.position + |b.rows|);
      sessions := sessions[sessionId := session];
      forall id | id in sessions && id != sessionId
        ensures sessions[id].cursor != session.cursor && sessions[id].cursor.Valid()
        ensures sessions[id].position == sessions[id].cursor.position
      {
        assert sessions[id] == old(sessions)[id];
      }
    }

    /** Reads within the row budget: nothing once it is spent. */
    method ReadBlock(cursor: DriverCursor<Row>, position: nat, limit: nat) returns (b: Block<Row>)
      requires cursor.Valid() && position == cursor.position
      modifies cursor
      ensures cursor.Valid() && cursor.position == position + |b.rows|
      ensures FetchAnswer(cursor.result, position, limit, maxRows, b)
    {
      var remaining := maxRows - position;
      if remaining <= 0 {
        return Block([], true, true);
      }
      var blockSize := Min(limit, remaining);
      var rows, complete := cursor.Fetch(blockSize);
      var hitBudget := !complete && position + |rows| >= maxRows;
      return Block(rows, complete || hitBudget, hitBudget);
    }

    /** One fetch from a session that has served `served` rows; `others` are the sessions besides. */
    method DriveOn(
        ghost others: map<string, CursorSession<Row>>, session: CursorSession<Row>, sessionId: string, limit: nat,
        now: int)
      returns (b: Block<Row>)
      requires Valid() && sessionId !in others && sessions == others[sessionId := session]
      modifies this, session.cursor
      ensures Valid() && FetchAnswer(session.cursor.result, session.position, limit, maxRows, b)
      ensures sessions == if b.complete then others
                          else others[sessionId := session.(position := session.position + |b.rows|, lastUsed := now)]
    {
      hide FetchAnswer, Valid;
      var answer := Fetch(session.connectionId, session.userId, sessionId, limit, now);
      b := answer.value;
      assert others[sessionId := session] - {sessionId} == others;
    }

    /** A client's use of a session: it opens a stream and fetches with the given limits until the stream is
        complete. */
    method Drive(connectionId: string, userId: string, cursor: DriverCursor<Row>, sessionId: string, limits: seq<nat>,
                 times: nat -> int)
      returns (blocks: seq<Block<Row>>)
      requires Valid() && cursor.Valid() && cursor.position == 0
      requires sessionId !in sessions && forall id :: id in sessions ==> sessions[id].cursor != cursor
      modifies this, cursor
      ensures Valid() && 0 < |blocks| <= |limits| + 1 && Stream(cursor.result, maxRows, limits[..|blocks| - 1], blocks)
      ensures blocks[|blocks| - 1].complete || |blocks| == |limits| + 1
      ensures sessions == if blocks[|blocks| - 1].complete then old(sessions)
                          else old(sessions)[sessionId := CursorSession(connectionId, userId, cursor, |Served(blocks)|,
                                                                        times(|blocks| - 1))]
    {
      hide OpenAnswer, FetchAnswer, Stream, Served, Valid;
      ghost var others := sessions;
      var b := Open(connectionId, userId, cursor, sessionId, times(0));
      blocks := [b];
      StreamBegins(cursor.result, maxRows, b);
      var session := CursorSession(connectionId, userId, cursor, |b.rows|, times(0));
      for i := 0 to |limits|
        invariant Valid() && |blocks| == i + 1 && blocks[i] == b && Stream(cursor.result, maxRows, limits[..i], blocks)
        invariant session == CursorSession(connectionId, userId, cursor, |Served(blocks)|, times(i))
        invariant sessions == if b.complete then others else others[sessionId := session]
      {
        if b.complete {
          return;
        }
        b := DriveOn(others, session, sessionId, limits[i], times(i + 1));
        StreamGoesOn(cursor.result, maxRows, limits[..i], blocks, limits[i], b);
        assert limits[..i + 1] == limits[..i] + [limits[i]];
        blocks := blocks + [b];
        session := session.(position := session.position + |b.rows|, lastUsed := times(i + 1));
      }
      assert limits[..|limits|] == limits;
    }

    method CloseSession(sessionId: string)
      modifies this
      ensures sessions == old(sessions) - {sessionId} && (old(Valid()) ==> Valid())
    {
      if sessionId !in sessions {
        return;
      }
      sessions := sessions - {sessionId};
    }

    /** Closes exactly the sessions that have been idle for longer than the limit. */
    method Reap(now: int)
      modifies this
      ensures sessions == map id | id in old(sessions) && now - old(sessions)[id].lastUsed <= idleMs ::
              old(sessions)[id]
    {
      var left := sessions.Keys;
      while left != {}
        invariant left <= old(sessions).Keys
        invariant sessions == map id | id in old(sessions)
                  && (id in left || now - old(sessions)[id].lastUsed <= idleMs) :: old(sessions)[id]
        decreases left
      {
        var id :| id in left;
        if now - sessions[id].lastUsed > idleMs {
          CloseSession(id);
        }
        left := left - {id};
      }
    }
  }
}
