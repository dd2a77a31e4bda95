/**
 * `MemStorage`: the in-memory store behind the speech-generation endpoint.
 * Two keyed collections, one per table, each with its own auto-increment
 * counter. Nothing is ever deleted.
 */
module Storage {
  import opened Wrappers
  import opened Schema

  class MemStorage {
    var users: map<int, User>
    /** The keys of `users` in the order they were first set (the iteration order of a JS `Map`). */
    var userOrder: seq<int>
    var speechRequests: map<int, SpeechRequest>
    var currentUserId: int
    var currentSpeechRequestId: int

    /**
     * Ids are handed out from 1 upwards and never reused, so the keys in use
     * are exactly the ids below each counter, and users are iterated in id
     * order. A user record always carries its own key as its id.
     */
    ghost predicate Valid()
      reads this
    {
      && currentUserId >= 1
      && currentSpeechRequestId >= 1
      && |userOrder| == currentUserId - 1
      && (forall i | 0 <= i < |userOrder| :: userOrder[i] == i + 1)
      && (forall id :: id in users <==> 1 <= id < currentUserId)
      && (forall id | id in users :: users[id].id == id)
      && (forall id :: id in speechRequests <==> 1 <= id < currentSpeechRequestId)
    }

    /**
     * Every stored speech request carries its own key as its id. Creation
     * keeps this; an update keeps it unless its patch supplies a different id.
     */
    ghost predicate RequestIdsMatchKeys()
      reads this
    {
      forall id | id in speechRequests :: speechRequests[id].id == id
    }

    constructor()
      ensures Valid() && RequestIdsMatchKeys()
      ensures users == map[] && userOrder == [] && speechRequests == map[]
      ensures currentUserId == 1 && currentSpeechRequestId == 1
    {
      users := map[];
      userOrder := [];
      speechRequests := map[];
      currentUserId := 1;
      currentSpeechRequestId := 1;
    }

    method GetUser(id: int) returns (user: Option<User>)
      ensures user.Some? <==> id in users
      ensures user.Some? ==> user.value == users[id]
    {
      user := if id in users then Some(users[id]) else None;
    }

    /**
     * The first user, in insertion order, whose username is `username`:
     * since insertion order is id order, the one with the smallest id.
     * Usernames are not unique in this store.
     */
    method GetUserByUsername(username: string) returns (user: Option<User>)
      requires Valid()
      ensures user.None? <==> forall id | id in users :: users[id].username != username
      ensures user.Some? ==> user.value.id in users && users[user.value.id] == user.value
      ensures user.Some? ==> user.value.username == username
      ensures user.Some? ==> forall id | id in users && id < user.value.id :: users[id].username != username
    {
      var i := 0;
      while i < |userOrder|
        invariant 0 <= i <= |userOrder|
        invariant forall id | id in users && id < i + 1 :: users[id].username != username
      {
        var candidate := users[userOrder[i]];
        if candidate.username == username {
          return Some(candidate);
        }
        i := i + 1;
      }
      return None;
    }

    method CreateUser(insertUser: InsertUser) returns (user: User)
      requires Valid()
      modifies this
      ensures Valid()
      ensures user == User(old(currentUserId), insertUser.username, insertUser.password)
      ensures user.id !in old(users)
      ensures users == old(users)[user.id := user]
      ensures userOrder == old(userOrder) + [user.id]
      ensures currentUserId == old(currentUserId) + 1
      ensures speechRequests == old(speechRequests)
      ensures currentSpeechRequestId == old(currentSpeechRequestId)
    {
      var id := currentUserId;
      currentUserId := currentUserId + 1;
      user := User(id, insertUser.username, insertUser.password);
      users := users[id := user];
      userOrder := userOrder + [id];
    }

    method CreateSpeechRequest(insertRequest: InsertSpeechRequest) returns (request: SpeechRequest)
      requires Valid()
      modifies this
      ensures Valid()
      ensures old(RequestIdsMatchKeys()) ==> RequestIdsMatchKeys()
      ensures request == NewSpeechRequest(insertRequest, old(currentSpeechRequestId))
      ensures request.id !in old(speechRequests)
      ensures forall id | id in old(speechRequests) :: id < request.id
      ensures speechRequests == old(speechRequests)[request.id := request]
      ensures currentSpeechRequestId == old(currentSpeechRequestId) + 1
      ensures users == old(users) && userOrder == old(userOrder)
      ensures currentUserId == old(currentUserId)
    {
      var id := currentSpeechRequestId;
      currentSpeechRequestId := currentSpeechRequestId + 1;
      request := NewSpeechRequest(insertRequest, id);
      speechRequests := speechRequests[id := request];
    }

    /**
     * `{ ...existing, ...updates }` stored back under `id`, or `None`
     * (`undefined`) with nothing changed when `id` is not a key.
     */
    method UpdateSpeechRequest(id: int, updates: SpeechRequestPatch) returns (updated: Option<SpeechRequest>)
      requires Valid()
      modifies this
      ensures Valid()
      ensures old(RequestIdsMatchKeys()) && (updates.id.None? || updates.id == Some(id)) ==> RequestIdsMatchKeys()
      ensures id !in old(speechRequests) ==> updated.None? && speechRequests == old(speechRequests)
      ensures id in old(speechRequests) ==>
        && updated == Some(Merge(old(speechRequests)[id], updates))
        && speechRequests == old(speechRequests)[id := updated.value]
      ensures currentSpeechRequestId == old(currentSpeechRequestId)
      ensures users == old(users) && userOrder == old(userOrder)
      ensures currentUserId == old(currentUserId)
    {
      if id !in speechRequests {
        return None;
      }
      var merged := Merge(speechRequests[id], updates);
      speechRequests := speechRequests[id := merged];
      updated := Some(merged);
    }

    method GetSpeechRequest(id: int) returns (request: Option<SpeechRequest>)
      ensures request.Some? <==> id in speechRequests
      ensures request.Some? ==> request.value == speechRequests[id]
    {
      request := if id in speechRequests then Some(speechRequests[id]) else None;
    }
  }

  /**
   * A fresh store hands out id 1 first; a created request is retrievable
   * under its id with both results unset, and attaching the results changes
   * that record's two result fields and nothing else.
   */
  method CreateThenUpdate(insertRequest: InsertSpeechRequest, speech: string, wordCount: int)
      returns (created: SpeechRequest, found: Option<SpeechRequest>, updated: Option<SpeechRequest>)
    ensures created == NewSpeechRequest(insertRequest, 1)
    ensures found == Some(created)
    ensures updated == Some(created.(generatedSpeech := Some(speech), wordCount := Some(wordCount)))
  {
    var store := new MemStorage();
    created := store.CreateSpeechRequest(insertRequest);
    found := store.GetSpeechRequest(created.id);
    updated := store.UpdateSpeechRequest(created.id, GenerationResult(speech, wordCount));
    GenerationResultAttaches(created, speech, wordCount);
  }
}
