/** The chat page's session and message state, with each event handler run to
    completion as one sequential step. The persisted parts are the session
    store (an IndexedDB object store) and the remembered `lastSessionId` in
    `localStorage`; the rest is the component's in-memory state. */
module Chat {
  import opened Wrappers
  import opened JsText
  import opened IndexedDb

  /** One chat line; `received` tells an inbound frame from an outbound one. */
  datatype Message = Message(id: string, text: string, received: bool, timestamp: int)

  /** One stored session: its ordered messages and the time of its last write. */
  datatype Record = Record(messages: seq<Message>, lastUpdated: int)

  /** `new Set(messages.map(msg => msg.id))`: the set of ids occurring in `ms`. */
  function IdsOf(ms: seq<Message>): (r: set<string>)
    ensures forall x :: x in r <==> exists i :: 0 <= i < |ms| && ms[i].id == x
  {
    if ms == [] then {}
    else
      var front := IdsOf(ms[..|ms| - 1]);
      assert forall i :: 0 <= i < |ms| - 1 ==> ms[..|ms| - 1][i] == ms[i];
      front + {ms[|ms| - 1].id}
  }

  /** Appending one message adds exactly its id to the ids of the list. */
  lemma IdsOfAppend(ms: seq<Message>, m: Message)
    ensures IdsOf(ms + [m]) == IdsOf(ms) + {m.id}
  {
  }

  predicate Distinct(s: seq<int>) {
    forall i, j :: 0 <= i < j < |s| ==> s[i] != s[j]
  }

  /** `list.filter(s => s.id !== id)` over the session ids. */
  function Without(ids: seq<int>, id: int): (r: seq<int>)
    ensures forall k :: k in r <==> k in ids && k != id
    ensures |r| <= |ids|
    ensures id !in ids ==> r == ids
  {
    if ids == [] then []
    else (if ids[0] == id then [] else [ids[0]]) + Without(ids[1..], id)
  }

  /** Filtering keeps a list of distinct ids distinct. */
  lemma {:induction false} WithoutDistinct(ids: seq<int>, id: int)
    requires Distinct(ids)
    ensures Distinct(Without(ids, id))
  {
    if ids != [] {
      WithoutDistinct(ids[1..], id);
      assert ids[0] !in ids[1..];
    }
  }

  /** On a list of distinct ids, filtering out one that occurs at position `i`
      removes exactly that position and keeps the order of the rest. */
  lemma {:induction false} WithoutRemovesOne(ids: seq<int>, id: int, i: nat)
    requires Distinct(ids) && i < |ids| && ids[i] == id
    ensures Without(ids, id) == ids[..i] + ids[i + 1..]
  {
    if i == 0 {
      assert id !in ids[1..];
    } else {
      WithoutRemovesOne(ids[1..], id, i - 1);
      assert ids[1..][..i - 1] == ids[1..i];
      assert ids[1..][i..] == ids[i + 1..];
      assert [ids[0]] + ids[1..i] == ids[..i];
    }
  }

  /** The session the page opens on a non-empty store:
      `Number(localStorage.getItem("lastSessionId")) || firstId`, where NaN and 0
      are the falsy numbers. */
  function InitialSession(lastSessionId: Option<string>, firstId: int): (r: int)
    ensures var n := NumberOfItem(lastSessionId); n.Some? && n.value != 0 ==> r == n.value
    ensures var n := NumberOfItem(lastSessionId); n == None || n == Some(0) ==> r == firstId
    ensures lastSessionId == None ==> r == firstId
  {
    var n := NumberOfItem(lastSessionId);
    if n.Some? && n.value != 0 then n.value else firstId
  }

  /** A session id remembered with `String(id)` is the one the next page load
      opens, unless it is 0 (which `||` treats as absent). */
  lemma {:induction false} RememberedSessionReopens(id: int, firstId: int)
    ensures InitialSession(Some(ShowInt(id)), firstId) == if id != 0 then id else firstId
  {
    NumberOfShowInt(id);
  }

  class ChatComponent {
    /** The "sessions" object store. */
    var db: Store<Record>
    /** `localStorage` item "lastSessionId". */
    var lastSessionId: Option<string>
    /** The session list shown as buttons (`sessions` state), by id. */
    var sessions: seq<int>
    /** `currentSession` state; `None` is `null`. */
    var current: Option<int>
    /** `messages` state. */
    var messages: seq<Message>
    /** `messageIdsRef.current`: the ids already seen. */
    var seen: set<string>
    /** `inputMessage` state. */
    var input: string

    /** The store's key generator is sound, the listed sessions are distinct
        stored sessions, and the seen set is exactly the ids of the messages on
        screen. */
    ghost predicate Valid()
      reads this
    {
      && db.Valid()
      && Distinct(sessions)
      && (forall k :: k in sessions ==> k in db.records)
      && seen == IdsOf(messages)
    }

    /** The first render, over whatever the store and `localStorage` already hold. */
    constructor (db: Store<Record>, lastSessionId: Option<string>)
      requires db.Valid()
      ensures Valid()
      ensures this.db == db && this.lastSessionId == lastSessionId
      ensures sessions == [] && current == None
      ensures messages == [] && seen == {} && input == ""
    {
      this.db := db;
      this.lastSessionId := lastSessionId;
      sessions := [];
      current := None;
      messages := [];
      seen := {};
      input := "";
    }

    /** `createNewSession`: adds an empty record under a fresh key, lists it,
        makes it current and remembered, and empties the messages and seen set. */
    method CreateNewSession(now: int) returns (id: int)
      requires Valid()
      modifies this
      ensures Valid()
      ensures id == old(db.next) && id >= 1 && id !in old(db.records)
      ensures db.records == old(db.records)[id := Record([], now)]
      ensures db.next > old(db.next)
      ensures sessions == old(sessions) + [id]
      ensures current == Some(id) && lastSessionId == Some(ShowInt(id))
      ensures messages == [] && seen == {}
      ensures input == old(input)
    {
      var added := db.Add(Record([], now));
      db := added.0;
      id := added.1;
      sessions := sessions + [id];
      current := Some(id);
      lastSessionId := Some(ShowInt(id));
      messages := [];
      seen := {};
    }

    /** `switchSession(id)`: makes `id` current and remembered, and shows its
        stored messages, or none when there is no such record. */
    method SwitchSession(id: int)
      requires Valid()
      modifies this
      ensures Valid()
      ensures current == Some(id) && lastSessionId == Some(ShowInt(id))
      ensures id in db.records ==> messages == db.records[id].messages
      ensures id !in db.records ==> messages == []
      ensures seen == IdsOf(messages)
      ensures db == old(db) && sessions == old(sessions) && input == old(input)
    {
      current := Some(id);
      lastSessionId := Some(ShowInt(id));
      match db.Get(id)
      case Some(record) =>
        messages := record.messages;
        seen := IdsOf(record.messages);
      case None =>
        messages := [];
        seen := {};
    }

    /** `deleteSession(id)`: removes the record and the list entry for `id`;
        when `id` was current, falls back to the first remaining listed
        session, or to a new empty one when none remains. */
    method DeleteSession(id: int, now: int)
      requires Valid()
      modifies this
      ensures Valid()
      ensures input == old(input)
      ensures db.next >= old(db.next)
      ensures old(current) != Some(id) ==>
        && db.records == old(db.records) - {id} && db.next == old(db.next)
        && sessions == Without(old(sessions), id)
        && current == old(current) && messages == old(messages) && seen == old(seen)
        && lastSessionId == old(lastSessionId)
      ensures old(current) == Some(id) ==>
        && current.Some? && current.value in db.records && current.value in sessions
        && lastSessionId == Some(ShowInt(current.value))
        && messages == db.records[current.value].messages
        && seen == IdsOf(messages)
      ensures old(current) == Some(id) && Without(old(sessions), id) != [] ==>
        && db.records == old(db.records) - {id}
        && sessions == Without(old(sessions), id)
        && current == Some(sessions[0])
      ensures old(current) == Some(id) && Without(old(sessions), id) == [] ==>
        && current.Some? && current.value !in old(db.records)
        && db.records == (old(db.records) - {id})[current.value := Record([], now)]
        && sessions == [current.value]
        && messages == [] && seen == {}
    {
      db := db.Delete(id);
      var remaining := Without(sessions, id);
      WithoutDistinct(sessions, id);
      sessions := remaining;
      assert Valid();
      if current == Some(id) {
        if |remaining| > 0 {
          assert remaining[0] in db.records;
          SwitchSession(remaining[0]);
        } else {
          ghost var before := db.records;
          var newId := CreateNewSession(now);
          assert sessions == [newId];
          if newId != 0 {
            SwitchSession(newId);
          }
          assert db.records == before[newId := Record([], now)];
        }
      }
    }

    /** `saveMessagesToDB(updated)`: overwrites the current session's record
        and no other; nothing happens while `currentSession` is falsy (`null`
        or 0). */
    method SaveMessagesToDB(updated: seq<Message>, now: int)
      requires Valid()
      modifies this
      ensures Valid()
      ensures old(current).Some? && old(current).value != 0 ==>
        db.records == old(db.records)[old(current).value := Record(updated, now)]
      ensures old(current) == None || old(current) == Some(0) ==> db == old(db)
      ensures db.next >= old(db.next)
      ensures sessions == old(sessions) && current == old(current)
      ensures messages == old(messages) && seen == old(seen)
      ensures lastSessionId == old(lastSessionId) && input == old(input)
    {
      if current.Some? && current.value != 0 {
        db := db.Put(current.value, Record(updated, now));
      }
    }

    /** The input field's `onChange`. */
    method SetInput(text: string)
      requires Valid()
      modifies this
      ensures Valid()
      ensures input == text
      ensures db == old(db) && lastSessionId == old(lastSessionId) && sessions == old(sessions)
      ensures current == old(current) && messages == old(messages) && seen == old(seen)
    {
      input := text;
    }

    /** `sendMessage`: when the input has a visible character and the socket
        is open, sends the input as typed, appends it as one outbound message,
        writes the list to the current session and clears the input; otherwise
        changes nothing. `frame` is what goes out on the socket. */
    method SendMessage(socketOpen: bool, id: string, now: int) returns (frame: Option<string>)
      requires Valid()
      modifies this
      ensures Valid()
      ensures frame.Some? <==> Trim(old(input)) != [] && socketOpen
      ensures frame.None? ==>
        && db == old(db) && input == old(input) && messages == old(messages) && seen == old(seen)
      ensures frame.Some? ==>
        && frame.value == old(input)
        && messages == old(messages) + [Message(id, old(input), false, now)]
        && seen == old(seen) + {id}
        && input == ""
        && (old(current).Some? && old(current).value != 0 ==>
              db.records == old(db.records)[old(current).value := Record(messages, now)])
        && (old(current) == None || old(current) == Some(0) ==> db == old(db))
      ensures db.next >= old(db.next)
      ensures sessions == old(sessions) && current == old(current)
      ensures lastSessionId == old(lastSessionId)
    {
      if Trim(input) != [] && socketOpen {
        var text := input;
        var message := Message(id, text, false, now);
        var updated := messages + [message];
        IdsOfAppend(messages, message);
        messages, seen := updated, seen + {id};
        SaveMessagesToDB(updated, now);
        input := "";
        frame := Some(text);
      } else {
        frame := None;
      }
    }

    /** The socket's `onmessage`: an inbound frame whose id has not been seen
        is appended as one received message. The handler keeps the first
        render's `saveMessagesToDB`, for which there is no current session, so
        nothing is written to the store. */
    method ReceiveMessage(text: string, id: string, now: int)
      requires Valid()
      modifies this
      ensures Valid()
      ensures id in old(seen) ==> messages == old(messages) && seen == old(seen)
      ensures id !in old(seen) ==>
        messages == old(messages) + [Message(id, text, true, now)] && seen == old(seen) + {id}
      ensures db == old(db) && sessions == old(sessions) && current == old(current)
      ensures lastSessionId == old(lastSessionId) && input == old(input)
    {
      if id !in seen {
        seen := seen + {id};
        var message := Message(id, text, true, now);
        IdsOfAppend(messages, message);
        messages := messages + [message];
      }
    }

    /** `loadSessions`, the page's first effect: lists the stored sessions; on
        an empty store creates one and makes it current; otherwise makes the
        remembered session current (falling back to the first listed one) and
        shows its messages when its record exists. */
    method LoadSessions(now: int)
      requires Valid()
      modifies this
      ensures Valid()
      ensures input == old(input)
      ensures db.next >= old(db.next)
      ensures old(db.records) == map[] ==>
        && current.Some? && current.value !in old(db.records)
        && db.records == map[current.value := Record([], now)]
        && sessions == [current.value]
        && lastSessionId == Some(ShowInt(current.value))
        && messages == [] && seen == {}
      ensures old(db.records) != map[] ==>
        && db == old(db) && lastSessionId == old(lastSessionId)
        && sessions == old(db).AllKeys() && sessions != []
        && current == Some(InitialSession(old(lastSessionId), sessions[0]))
        && (current.value in db.records ==> messages == db.records[current.value].messages)
        && (current.value !in db.records ==> messages == old(messages))
        && seen == IdsOf(messages)
    {
      var all := db.AllKeys();
      sessions := all;
      if |all| == 0 {
        var newId := CreateNewSession(now);
        current := Some(newId);
      } else {
        var lastId := InitialSession(lastSessionId, all[0]);
        current := Some(lastId);
        match db.Get(lastId)
        case Some(record) =>
          messages := record.messages;
          seen := IdsOf(record.messages);
        case None =>
      }
    }
  }
}
