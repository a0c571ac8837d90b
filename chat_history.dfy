/** The chat session store (chat_history.py): a directory with one record
    per session, named after the session id. The directory is a map from
    file stem to the record stored in that file; writing a session
    replaces its whole record. */
module ChatHistory {
  import opened RagTypes

  /** The directory of session records, keyed by file stem. */
  type Directory = map<string, ChatSession>

  /** `_save_session`: write the whole record to the file named after its
      own session id. */
  function Write(dir: Directory, s: ChatSession): (d: Directory)
    ensures d.Keys == dir.Keys + {s.sessionId}
    ensures d[s.sessionId] == s
    ensures forall id :: id in dir && id != s.sessionId ==> d[id] == dir[id]
  {
    dir[s.sessionId := s]
  }

  /** `_load_session`: the record stored under `id`, if any. */
  function Read(dir: Directory, id: string): (r: Option<ChatSession>)
    ensures r.Some? <==> id in dir
    ensures r.Some? ==> r.value == dir[id]
  {
    if id in dir then Some(dir[id]) else None
  }

  /** Reading a session right after writing it gives it back; reading any
      other id gives what it gave before the write. */
  lemma ReadAfterWrite(dir: Directory, s: ChatSession, id: string)
    ensures Read(Write(dir, s), s.sessionId) == Some(s)
    ensures id != s.sessionId ==> Read(Write(dir, s), id) == Read(dir, id)
  {
  }

  /** Every record is stored under its own session id. */
  ghost predicate WellKeyed(dir: Directory) {
    forall id :: id in dir ==> dir[id].sessionId == id
  }

  /** A session with one more message at the end. */
  function WithMessage(s: ChatSession, m: ChatMessage): (s': ChatSession)
    ensures s'.sessionId == s.sessionId && s'.pdfName == s.pdfName && s'.createdAt == s.createdAt
    ensures |s'.messages| == |s.messages| + 1
    ensures s'.messages[..|s.messages|] == s.messages && s'.messages[|s.messages|] == m
  {
    s.(messages := s.messages + [m])
  }

  // ---------------------------------------------------------------------
  // Listing order: newest first
  // ---------------------------------------------------------------------

  /** Sessions ordered by `created_at`, non-increasing. */
  predicate NewestFirst(ss: seq<ChatSession>) {
    forall i, j :: 0 <= i < j < |ss| ==> ss[i].createdAt >= ss[j].createdAt
  }

  /** Insert `s` into a newest-first list, before the first session that is
      not newer than it. */
  function InsertNewestFirst(s: ChatSession, ss: seq<ChatSession>): (r: seq<ChatSession>)
    requires NewestFirst(ss)
    ensures NewestFirst(r)
    ensures multiset(r) == multiset(ss) + multiset{s}
    ensures r != [] && (r[0] == s || (ss != [] && r[0] == ss[0]))
  {
    if ss == [] || s.createdAt >= ss[0].createdAt then [s] + ss
    else
      var tail := InsertNewestFirst(s, ss[1..]);
      assert ss == [ss[0]] + ss[1..];
      [ss[0]] + tail
  }

  /** `sorted(sessions, key=lambda x: x.created_at, reverse=True)`: the same
      sessions, newest first. */
  function SortNewestFirst(ss: seq<ChatSession>): (r: seq<ChatSession>)
    ensures NewestFirst(r)
    ensures multiset(r) == multiset(ss)
  {
    if ss == [] then []
    else
      assert ss == [ss[0]] + ss[1..];
      InsertNewestFirst(ss[0], SortNewestFirst(ss[1..]))
  }

  /** The records stored under the ids of `ids`, in that order. */
  function RecordsOf(dir: Directory, ids: seq<string>): (ss: seq<ChatSession>)
    requires forall id :: id in ids ==> id in dir
    ensures |ss| == |ids|
    ensures forall i :: 0 <= i < |ids| ==> ss[i] == dir[ids[i]]
  {
    seq(|ids|, i requires 0 <= i < |ids| => dir[ids[i]])
  }

  /** ChatHistoryManager over its storage directory. */
  class ChatHistoryManager {
    var sessions: Directory

    /** Opening a manager on a directory that may already hold records. */
    constructor (existing: Directory)
      ensures sessions == existing
    {
      sessions := existing;
    }

    /** The directory only ever gets records written under their own ids. */
    ghost predicate Valid()
      reads this
    {
      WellKeyed(sessions)
    }

    /** `_save_session`. */
    method SaveSession(s: ChatSession)
      modifies this
      ensures sessions == Write(old(sessions), s)
    {
      sessions := Write(sessions, s);
    }

    /** `create_session`: store a new session for `pdfName` with no messages,
        created `now`, under the fresh id `freshId` (uuid4), and return the
        id; no other record changes. */
    method CreateSession(pdfName: string, freshId: string, now: Timestamp) returns (id: string)
      requires freshId !in sessions
      modifies this
      ensures id == freshId
      ensures sessions == old(sessions)[id := ChatSession(id, pdfName, [], now)]
      ensures Read(sessions, id) == Some(ChatSession(id, pdfName, [], now))
      ensures forall other :: other != id ==> Read(sessions, other) == Read(old(sessions), other)
      ensures |sessions| == |old(sessions)| + 1
      ensures old(Valid()) ==> Valid()
    {
      id := freshId;
      var session := ChatSession(id, pdfName, [], now);
      SaveSession(session);
    }

    /** `add_message`: on a stored session, append one message at the end
        and write the record back; on an unknown id, do nothing. */
    method AddMessage(id: string, question: string, answer: string, sources: seq<string>, now: Timestamp)
      modifies this
      ensures id !in old(sessions) ==> sessions == old(sessions)
      ensures id in old(sessions) ==>
                sessions == Write(old(sessions), WithMessage(old(sessions)[id], ChatMessage(question, answer, now, sources)))
      ensures old(Valid()) ==> Valid()
      ensures old(Valid()) ==> forall other :: other != id ==> Read(sessions, other) == Read(old(sessions), other)
      ensures old(Valid()) && id in old(sessions) ==>
                Read(sessions, id) == Some(WithMessage(old(sessions)[id], ChatMessage(question, answer, now, sources)))
    {
      var session := Read(sessions, id);
      if session.Some? {
        var message := ChatMessage(question, answer, now, sources);
        SaveSession(WithMessage(session.value, message));
      }
    }

    /** `get_session_history`: the session's messages in order, or none
        for an unknown id. */
    method GetSessionHistory(id: string) returns (messages: seq<ChatMessage>)
      ensures id !in sessions ==> messages == []
      ensures id in sessions ==> messages == sessions[id].messages
    {
      var session := Read(sessions, id);
      messages := if session.Some? then session.value.messages else [];
    }

    /** `get_all_sessions`: load every record of the directory, visited in
        an unspecified order (`glob`), then sort newest first. The result
        is a permutation of the stored records, one per file. */
    method GetAllSessions() returns (all: seq<ChatSession>, ghost visited: seq<string>)
      ensures |visited| == |sessions|
      ensures forall id :: id in sessions <==> id in visited
      ensures forall i, j :: 0 <= i < j < |visited| ==> visited[i] != visited[j]
      ensures multiset(all) == multiset(RecordsOf(sessions, visited))
      ensures NewestFirst(all)
    {
      var loaded: seq<ChatSession> := [];
      var remaining := sessions.Keys;
      visited := [];
      while remaining != {}
        invariant remaining <= sessions.Keys
        invariant forall id :: id in sessions ==> (id in remaining <==> id !in visited)
        invariant forall id :: id in visited ==> id in sessions
        invariant forall i, j :: 0 <= i < j < |visited| ==> visited[i] != visited[j]
        invariant |visited| + |remaining| == |sessions|
        invariant loaded == RecordsOf(sessions, visited)
        decreases remaining
      {
        var stem :| stem in remaining;
        var session := Read(sessions, stem);
        if session.Some? {
          loaded := loaded + [session.value];
        }
        visited := visited + [stem];
        remaining := remaining - {stem};
      }
      all := SortNewestFirst(loaded);
    }
  }
}
