/** The chat-session store of the popup (utils/indexeddb.ts): one IndexedDB
    object store `chats` keyed by the session's `id`. The store is modelled
    as the sequence of its records in key order, which is the order
    IndexedDB's `getAll` returns them in; each operation returns a `Result`
    whose failure carries the error message the promise rejects with. */
module SessionStore {
  import opened JsText
  import opened Wrappers

  datatype Role = User | Assistant

  datatype ChatMessage = ChatMessage(id: string, role: Role, content: string, timestamp: int)

  datatype ChatSession = ChatSession(id: string, title: string, messages: seq<ChatMessage>,
                                     createdAt: int, updatedAt: int)

  /** The manager's `db` handle: null until `init` has opened the database. */
  datatype Db = Uninitialized | Open(sessions: seq<ChatSession>)

  const NotInitialized: string := "Database not initialized. Call init() first."
  const SessionNotFound: string := "Session not found"

  /** The records are in strictly increasing key order, so no key occurs
      twice. */
  predicate Valid(ss: seq<ChatSession>) {
    forall i, j :: 0 <= i < j < |ss| ==> LexLess(ss[i].id, ss[j].id)
  }

  predicate ValidDb(db: Db) {
    db.Open? ==> Valid(db.sessions)
  }

  /** `store.get(id)`: the record with that key, if any. */
  function Get(ss: seq<ChatSession>, id: string): (r: Option<ChatSession>)
    ensures r.Some? ==> r.value in ss && r.value.id == id
    ensures r.None? ==> forall i :: 0 <= i < |ss| ==> ss[i].id != id
  {
    if |ss| == 0 then None
    else if ss[0].id == id then Some(ss[0])
    else Get(ss[1..], id)
  }

  /** `store.put(session)`: replace the record with the same key, or insert
      it at its place in key order. */
  function Put(ss: seq<ChatSession>, s: ChatSession): seq<ChatSession> {
    if |ss| == 0 then [s]
    else if ss[0].id == s.id then [s] + ss[1..]
    else if LexLess(s.id, ss[0].id) then [s] + ss
    else [ss[0]] + Put(ss[1..], s)
  }

  /** `store.delete(id)`. */
  function Delete(ss: seq<ChatSession>, id: string): seq<ChatSession> {
    if |ss| == 0 then []
    else if ss[0].id == id then Delete(ss[1..], id)
    else [ss[0]] + Delete(ss[1..], id)
  }

  /** In a valid store every later key is above the first one. */
  lemma ValidTail(ss: seq<ChatSession>)
    requires Valid(ss) && |ss| > 0
    ensures Valid(ss[1..])
    ensures forall x :: x in ss[1..] ==> LexLess(ss[0].id, x.id)
  {
  }

  lemma ValidCons(x: ChatSession, ss: seq<ChatSession>)
    requires Valid(ss)
    requires forall y :: y in ss ==> LexLess(x.id, y.id)
    ensures Valid([x] + ss)
  {
    var r := [x] + ss;
    forall i, j | 0 <= i < j < |r| ensures LexLess(r[i].id, r[j].id) {
      assert r[j] == ss[j - 1];
      if i > 0 {
        assert r[i] == ss[i - 1];
      }
    }
  }

  /** `put` keeps the store valid, makes the key read back the new record,
      leaves every other key as it was, and grows the store by one exactly
      when the key was new. */
  lemma PutSpec(ss: seq<ChatSession>, s: ChatSession)
    requires Valid(ss)
    ensures Valid(Put(ss, s))
    ensures Get(Put(ss, s), s.id) == Some(s)
    ensures forall k :: k != s.id ==> Get(Put(ss, s), k) == Get(ss, k)
    ensures |Put(ss, s)| == |ss| + (if Get(ss, s.id).None? then 1 else 0)
    ensures forall x :: x in Put(ss, s) ==> x == s || x in ss
  {
    PutMembers(ss, s);
    PutValid(ss, s);
    PutGet(ss, s);
    PutLength(ss, s);
  }

  /** `put` adds no record but the one written. */
  lemma {:induction false} PutMembers(ss: seq<ChatSession>, s: ChatSession)
    ensures forall x :: x in Put(ss, s) ==> x == s || x in ss
  {
    if |ss| > 0 && ss[0].id != s.id && !LexLess(s.id, ss[0].id) {
      PutMembers(ss[1..], s);
      assert Put(ss, s) == [ss[0]] + Put(ss[1..], s);
    }
  }

  /** `put` keeps the store in key order. */
  lemma {:induction false} PutValid(ss: seq<ChatSession>, s: ChatSession)
    requires Valid(ss)
    ensures Valid(Put(ss, s))
  {
    if |ss| > 0 {
      ValidTail(ss);
      if ss[0].id == s.id {
        ValidCons(s, ss[1..]);
      } else if LexLess(s.id, ss[0].id) {
        forall y | y in ss ensures LexLess(s.id, y.id) {
          if y != ss[0] {
            LexLessTransitive(s.id, ss[0].id, y.id);
          }
        }
        ValidCons(s, ss);
      } else {
        LexLessTotal(s.id, ss[0].id);
        PutValid(ss[1..], s);
        PutMembers(ss[1..], s);
        ValidCons(ss[0], Put(ss[1..], s));
      }
    }
  }

  /** After `put` the key reads back the record written, and every other
      key reads as before. */
  lemma {:induction false} PutGet(ss: seq<ChatSession>, s: ChatSession)
    ensures Get(Put(ss, s), s.id) == Some(s)
    ensures forall k :: k != s.id ==> Get(Put(ss, s), k) == Get(ss, k)
  {
    if |ss| > 0 {
      var r := Put(ss, s);
      if ss[0].id == s.id {
        assert r[1..] == ss[1..];
      } else if LexLess(s.id, ss[0].id) {
        assert r[1..] == ss;
      } else {
        PutGet(ss[1..], s);
        assert r[1..] == Put(ss[1..], s);
      }
    }
  }

  /** `put` grows the store by one exactly when the key was new. */
  lemma {:induction false} PutLength(ss: seq<ChatSession>, s: ChatSession)
    requires Valid(ss)
    ensures |Put(ss, s)| == |ss| + (if Get(ss, s.id).None? then 1 else 0)
  {
    if |ss| > 0 && ss[0].id != s.id {
      if LexLess(s.id, ss[0].id) {
        forall i | 0 <= i < |ss| ensures ss[i].id != s.id {
          if i > 0 {
            LexLessTransitive(s.id, ss[0].id, ss[i].id);
          }
          LexLessIrreflexive(s.id);
        }
      } else {
        ValidTail(ss);
        PutLength(ss[1..], s);
      }
    }
  }

  /** `delete` keeps the store valid, removes the key, keeps every other
      record, and removes at most one record. */
  lemma {:induction false} DeleteSpec(ss: seq<ChatSession>, id: string)
    requires Valid(ss)
    ensures Valid(Delete(ss, id))
    ensures Get(Delete(ss, id), id) == None
    ensures forall k :: k != id ==> Get(Delete(ss, id), k) == Get(ss, k)
    ensures |Delete(ss, id)| == |ss| - (if Get(ss, id).Some? then 1 else 0)
    ensures forall x :: x in Delete(ss, id) ==> x in ss
  {
    if |ss| > 0 {
      ValidTail(ss);
      DeleteSpec(ss[1..], id);
      var rest := Delete(ss[1..], id);
      if ss[0].id == id {
        forall i | 1 <= i < |ss| ensures ss[i].id != id {
          LexLessIrreflexive(id);
        }
        assert Get(ss[1..], id) == None;
      } else {
        var r := Delete(ss, id);
        assert r == [ss[0]] + rest;
        assert r[1..] == rest;
        ValidCons(ss[0], rest);
      }
    }
  }

  // ---------------------------------------------------------------------
  // The manager's operations
  // ---------------------------------------------------------------------

  /** `ensureDB` (lines 33-38). */
  function EnsureDb(db: Db): (r: Result<seq<ChatSession>>)
    ensures db.Uninitialized? <==> r == Failure(NotInitialized)
    ensures db.Open? ==> r == Success(db.sessions)
  {
    match db
    case Uninitialized => Failure(NotInitialized)
    case Open(ss) => Success(ss)
  }

  /** `saveSession` (lines 41-51). */
  function SaveSession(db: Db, s: ChatSession): Result<Db> {
    var ss :- EnsureDb(db);
    Success(Open(Put(ss, s)))
  }

  /** `getSession` (lines 53-63): null when the key is absent. */
  function GetSession(db: Db, id: string): Result<Option<ChatSession>> {
    var ss :- EnsureDb(db);
    Success(Get(ss, id))
  }

  /** `deleteSession` (lines 82-92). */
  function DeleteSession(db: Db, id: string): Result<Db> {
    var ss :- EnsureDb(db);
    Success(Open(Delete(ss, id)))
  }

  /** `addMessageToSession` (lines 94-103): read the session, append the
      message, stamp `updated_at` with `now`, and write it back. */
  function AddMessageToSession(db: Db, id: string, m: ChatMessage, now: int): Result<Db> {
    var found :- GetSession(db, id);
    if found.None? then Failure(SessionNotFound)
    else
      var s := found.value;
      SaveSession(db, s.(messages := s.messages + [m], updatedAt := now))
  }

  /** Every operation fails with the initialisation error before `init`. */
  lemma UninitializedFails(id: string, s: ChatSession, m: ChatMessage, now: int)
    ensures SaveSession(Uninitialized, s) == Failure(NotInitialized)
    ensures GetSession(Uninitialized, id) == Failure(NotInitialized)
    ensures GetAllSessions(Uninitialized) == Failure(NotInitialized)
    ensures DeleteSession(Uninitialized, id) == Failure(NotInitialized)
    ensures AddMessageToSession(Uninitialized, id, m, now) == Failure(NotInitialized)
  {
  }

  /** Saving upserts by id: the session reads back, no other session
      changes, and the store grows by one only for a new id. */
  lemma SaveSessionSpec(db: Db, s: ChatSession)
    requires db.Open? && Valid(db.sessions)
    ensures SaveSession(db, s).Success? && ValidDb(SaveSession(db, s).value)
    ensures GetSession(SaveSession(db, s).value, s.id) == Success(Some(s))
    ensures forall k :: k != s.id ==> GetSession(SaveSession(db, s).value, k) == GetSession(db, k)
    ensures |SaveSession(db, s).value.sessions| == |db.sessions| + (if Get(db.sessions, s.id).None? then 1 else 0)
  {
    PutSpec(db.sessions, s);
  }

  /** Deleting removes only that id. */
  lemma DeleteSessionSpec(db: Db, id: string)
    requires db.Open? && Valid(db.sessions)
    ensures DeleteSession(db, id).Success? && ValidDb(DeleteSession(db, id).value)
    ensures GetSession(DeleteSession(db, id).value, id) == Success(None)
    ensures forall k :: k != id ==> GetSession(DeleteSession(db, id).value, k) == GetSession(db, k)
  {
    DeleteSpec(db.sessions, id);
  }

  /** Appending a message to a stored session puts it last in that session
      and stamps the time; other sessions are untouched. For an absent id
      the call fails with "Session not found" and writes nothing. */
  lemma AddMessageSpec(db: Db, id: string, m: ChatMessage, now: int)
    requires db.Open? && Valid(db.sessions)
    ensures Get(db.sessions, id).None? ==> AddMessageToSession(db, id, m, now) == Failure(SessionNotFound)
    ensures Get(db.sessions, id).Some? ==>
              var old_ := Get(db.sessions, id).value;
              var r := AddMessageToSession(db, id, m, now);
              r.Success? && ValidDb(r.value)
              && GetSession(r.value, id) == Success(Some(old_.(messages := old_.messages + [m], updatedAt := now)))
              && |r.value.sessions| == |db.sessions|
              && forall k :: k != id ==> GetSession(r.value, k) == GetSession(db, k)
  {
    var found := Get(db.sessions, id);
    if found.Some? {
      var s := found.value;
      PutSpec(db.sessions, s.(messages := s.messages + [m], updatedAt := now));
    }
  }

  // ---------------------------------------------------------------------
  // getAllSessions
  // ---------------------------------------------------------------------

  /** One insertion step of a stable sort by `updated_at`, newest first: the
      new record goes after every record at least as new. */
  function InsertByUpdated(xs: seq<ChatSession>, x: ChatSession): seq<ChatSession> {
    if |xs| == 0 then [x]
    else if xs[0].updatedAt >= x.updatedAt then [xs[0]] + InsertByUpdated(xs[1..], x)
    else [x] + xs
  }

  /** The stable sort of the first `n` records. */
  function SortByUpdated(ss: seq<ChatSession>, n: nat): seq<ChatSession>
    requires n <= |ss|
  {
    if n == 0 then [] else InsertByUpdated(SortByUpdated(ss, n - 1), ss[n - 1])
  }

  /** `getAllSessions` (lines 65-80): the records in key order, sorted by
      `updated_at` descending (`Array.prototype.sort` is stable). */
  function GetAllSessions(db: Db): Result<seq<ChatSession>> {
    var ss :- EnsureDb(db);
    Success(SortByUpdated(ss, |ss|))
  }

  predicate NewestFirst(xs: seq<ChatSession>) {
    forall i, j :: 0 <= i < j < |xs| ==> xs[i].updatedAt >= xs[j].updatedAt
  }

  /** Records with the same `updated_at` stay in key order. */
  predicate TiesByKey(xs: seq<ChatSession>) {
    forall i, j :: 0 <= i < j < |xs| && xs[i].updatedAt == xs[j].updatedAt ==> LexLess(xs[i].id, xs[j].id)
  }

  lemma {:induction false} InsertByUpdatedMultiset(xs: seq<ChatSession>, x: ChatSession)
    ensures multiset(InsertByUpdated(xs, x)) == multiset(xs) + multiset{x}
  {
    if |xs| > 0 && xs[0].updatedAt >= x.updatedAt {
      InsertByUpdatedMultiset(xs[1..], x);
      assert xs == [xs[0]] + xs[1..];
    }
  }

  /** The first record of an insertion is the old first record or the new
      one, and the new one comes first only when it is strictly newer. */
  lemma InsertByUpdatedHead(xs: seq<ChatSession>, x: ChatSession)
    ensures |InsertByUpdated(xs, x)| == |xs| + 1
    ensures InsertByUpdated(xs, x)[0] == (if |xs| > 0 && xs[0].updatedAt >= x.updatedAt then xs[0] else x)
  {
  }

  lemma {:induction false} InsertByUpdatedSpec(xs: seq<ChatSession>, x: ChatSession)
    requires NewestFirst(xs) && TiesByKey(xs)
    requires forall y :: y in xs ==> LexLess(y.id, x.id)
    ensures NewestFirst(InsertByUpdated(xs, x)) && TiesByKey(InsertByUpdated(xs, x))
  {
    if |xs| > 0 {
      if xs[0].updatedAt >= x.updatedAt {
        var tail := xs[1..];
        TailOrdered(xs, x);
        InsertByUpdatedSpec(tail, x);
        var rest := InsertByUpdated(tail, x);
        assert InsertByUpdated(xs, x) == [xs[0]] + rest;
        InsertedHeadBound(xs, x);
        PrependOrdered(xs[0], rest);
      } else {
        assert InsertByUpdated(xs, x) == [x] + xs;
        PrependOrdered(x, xs);
      }
    }
  }

  lemma TailOrdered(xs: seq<ChatSession>, x: ChatSession)
    requires |xs| > 0 && NewestFirst(xs) && TiesByKey(xs)
    requires forall y :: y in xs ==> LexLess(y.id, x.id)
    ensures NewestFirst(xs[1..]) && TiesByKey(xs[1..])
    ensures forall y :: y in xs[1..] ==> LexLess(y.id, x.id)
  {
    assert forall y :: y in xs[1..] ==> y in xs;
  }

  /** The old first record, when it stays first, is at least as new as
      every record after it, and above in key order on a tie. */
  lemma InsertedHeadBound(xs: seq<ChatSession>, x: ChatSession)
    requires |xs| > 0 && NewestFirst(xs) && TiesByKey(xs) && xs[0].updatedAt >= x.updatedAt
    requires forall y :: y in xs ==> LexLess(y.id, x.id)
    ensures forall j :: 0 <= j < |InsertByUpdated(xs[1..], x)| ==>
              xs[0].updatedAt >= InsertByUpdated(xs[1..], x)[j].updatedAt
              && (xs[0].updatedAt == InsertByUpdated(xs[1..], x)[j].updatedAt
                  ==> LexLess(xs[0].id, InsertByUpdated(xs[1..], x)[j].id))
  {
    var tail := xs[1..];
    var rest := InsertByUpdated(tail, x);
    InsertByUpdatedMultiset(tail, x);
    forall j | 0 <= j < |rest| ensures xs[0].updatedAt >= rest[j].updatedAt
      && (xs[0].updatedAt == rest[j].updatedAt ==> LexLess(xs[0].id, rest[j].id))
    {
      var y := rest[j];
      assert y in multiset(rest);
      if y != x {
        assert y in multiset(tail);
        var k :| 0 <= k < |tail| && tail[k] == y;
        assert xs[k + 1] == y;
      } else {
        assert xs[0] in xs;
      }
    }
  }

  lemma PrependOrdered(h: ChatSession, xs: seq<ChatSession>)
    requires NewestFirst(xs) && TiesByKey(xs)
    requires forall j :: 0 <= j < |xs| ==> h.updatedAt >= xs[j].updatedAt
    requires forall j :: 0 <= j < |xs| && h.updatedAt == xs[j].updatedAt ==> LexLess(h.id, xs[j].id)
    ensures NewestFirst([h] + xs) && TiesByKey([h] + xs)
  {
    var r := [h] + xs;
    forall i, j | 0 <= i < j < |r| ensures r[i].updatedAt >= r[j].updatedAt
      && (r[i].updatedAt == r[j].updatedAt ==> LexLess(r[i].id, r[j].id))
    {
      assert r[j] == xs[j - 1];
      if i > 0 {
        assert r[i] == xs[i - 1];
      }
    }
  }

  lemma {:induction false} SortByUpdatedMultiset(ss: seq<ChatSession>, n: nat)
    requires n <= |ss|
    ensures multiset(SortByUpdated(ss, n)) == multiset(ss[..n])
  {
    if n > 0 {
      SortByUpdatedMultiset(ss, n - 1);
      InsertByUpdatedMultiset(SortByUpdated(ss, n - 1), ss[n - 1]);
      PrefixMultiset(ss, n);
    }
  }

  lemma {:induction false} SortByUpdatedSpec(ss: seq<ChatSession>, n: nat)
    requires n <= |ss| && Valid(ss)
    ensures NewestFirst(SortByUpdated(ss, n)) && TiesByKey(SortByUpdated(ss, n))
  {
    if n > 0 {
      SortByUpdatedSpec(ss, n - 1);
      var prev := SortByUpdated(ss, n - 1);
      SortedPrefixBelow(ss, n);
      InsertByUpdatedSpec(prev, ss[n - 1]);
    }
  }

  lemma PrefixMultiset<T>(s: seq<T>, n: nat)
    requires 0 < n <= |s|
    ensures multiset(s[..n]) == multiset(s[..n - 1]) + multiset{s[n - 1]}
  {
    assert s[..n] == s[..n - 1] + [s[n - 1]];
  }

  /** Every record sorted so far has a key below the next one's. */
  lemma SortedPrefixBelow(ss: seq<ChatSession>, n: nat)
    requires 0 < n <= |ss| && Valid(ss)
    ensures forall y :: y in SortByUpdated(ss, n - 1) ==> LexLess(y.id, ss[n - 1].id)
  {
    SortByUpdatedMultiset(ss, n - 1);
    PrefixBelow(ss, n);
    forall y | y in SortByUpdated(ss, n - 1) ensures LexLess(y.id, ss[n - 1].id) {
      assert y in multiset(SortByUpdated(ss, n - 1));
    }
  }

  /** In a valid store each key is above every key before it. */
  lemma PrefixBelow(ss: seq<ChatSession>, n: nat)
    requires 0 < n <= |ss| && Valid(ss)
    ensures forall y :: y in multiset(ss[..n - 1]) ==> LexLess(y.id, ss[n - 1].id)
  {
    forall y | y in multiset(ss[..n - 1]) ensures LexLess(y.id, ss[n - 1].id) {
      assert y in ss[..n - 1];
      var k :| 0 <= k < n - 1 && ss[..n - 1][k] == y;
      assert ss[k] == y;
    }
  }

  /** The listing holds exactly the stored sessions, newest first, with
      sessions of the same `updated_at` in key order. */
  lemma GetAllSessionsSpec(db: Db)
    requires db.Open? && Valid(db.sessions)
    ensures GetAllSessions(db).Success?
    ensures multiset(GetAllSessions(db).value) == multiset(db.sessions)
    ensures |GetAllSessions(db).value| == |db.sessions|
    ensures NewestFirst(GetAllSessions(db).value)
    ensures TiesByKey(GetAllSessions(db).value)
  {
    var ss := db.sessions;
    SortByUpdatedSpec(ss, |ss|);
    SortByUpdatedMultiset(ss, |ss|);
    assert ss[..|ss|] == ss;
    assert |multiset(GetAllSessions(db).value)| == |multiset(ss)|;
  }
}
