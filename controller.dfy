/**
 * The lookup controller of the single-page application: the identifier typed so far, the
 * currently displayed record, the recent-searches list, the loading flag, and the browser storage
 * slot named "recent" that mirrors the list.
 *
 * `fetchResult` is an async function that suspends at the network call. It is modelled as two
 * steps around that suspension: `Submit` (validation, then loading on and result cleared) and
 * `Settle` (the response, or the thrown error, is handled and loading goes off). Typing and
 * removing a card may happen between the two. The dismiss button is hidden then, because no
 * result is shown; the model still admits `RemoveResult` there, where it changes nothing.
 */
module Controller {
  import opened Wrappers
  import opened Sanitizer
  import opened Validation
  import opened History

  /** The request path prefix; the typed identifier is appended as it was typed ("05" stays "05"). */
  const UsersEndpoint: string := "https://jsonplaceholder.typicode.com/users/"

  /** The message of the error raised when the response status is not ok. */
  const NotFoundMessage: string := "User not found. Please try ID 1-10"

  /** How the network call ended; it is an input of the model, not something it computes. */
  datatype Response =
    | Ok(data: UserRecord)      // status ok and the body decoded to a user record
    | NotOk                     // status outside 200-299
    | Thrown(message: string)   // fetch or body decoding raised an error with this message

  /** What a submission did: refused by the guard, or issued a request for the given URL. */
  datatype SubmitOutcome = Rejected(error: ValidationError) | Requested(url: string)

  /** The notification shown when a request settles. */
  datatype Notice = Fetched | FetchFailed(message: string)

  class LookupController {
    var id: string
    var result: Option<UserRecord>
    var recent: seq<UserRecord>
    var loading: bool
    /** The storage slot "recent"; None while nothing has been stored. */
    var slot: Option<seq<UserRecord>>

    /**
     * The controller's invariant: the typed identifier holds digits only, the storage slot mirrors
     * the list, and no result is shown while a request is in flight.
     */
    ghost predicate Valid()
      reads this
    {
      IsDigits(id) && slot == Some(recent) && (loading ==> result == None)
    }

    /** The list invariant: at most MaxRecent entries, one per user id. */
    ghost predicate Bounded()
      reads this
    {
      |recent| <= MaxRecent && UniqueIds(recent)
    }

    /**
     * Start-up: the list is read from the storage slot (an empty list when the slot is absent) and
     * written back by the mirroring effect. Stored content is taken as it is, so the list invariant
     * holds afterwards exactly when it held of what was stored.
     */
    constructor (stored: Option<seq<UserRecord>>)
      ensures Valid()
      ensures id == [] && result == None && !loading
      ensures recent == (if stored.Some? then stored.value else [])
      ensures Bounded() <==> stored.None? || (|stored.value| <= MaxRecent && UniqueIds(stored.value))
    {
      id := [];
      result := None;
      recent := if stored.Some? then stored.value else [];
      loading := false;
      slot := Some(recent);
    }

    /** The input's change handler: the field keeps only the digits of what was typed. */
    method SetInput(text: string)
      requires Valid()
      modifies this`id
      ensures Valid()
      ensures id == Sanitize(text)
    {
      id := Sanitize(text);
    }

    /**
     * The part of `fetchResult` before the network call. A refused identifier changes nothing and
     * issues no request; an accepted one turns loading on, clears the shown result and requests
     * the endpoint with the identifier exactly as typed. The submit control is disabled while
     * loading, so a submission never starts while another request is in flight.
     */
    method Submit() returns (outcome: SubmitOutcome)
      requires Valid() && !loading
      modifies this`loading, this`result
      ensures Valid()
      ensures Validate(old(id)).Failure? ==>
        outcome == Rejected(Validate(old(id)).error) && !loading && result == old(result)
      ensures Validate(old(id)).Success? ==>
        outcome == Requested(UsersEndpoint + id) && loading && result == None
      ensures outcome.Rejected? <==> Validate(id).Failure?
    {
      var check := Validate(id);
      if check.Failure? {
        return Rejected(check.error);
      }
      loading := true;
      result := None;
      outcome := Requested(UsersEndpoint + id);
    }

    /**
     * The part of `fetchResult` after the network call. On success the record is shown and upserted
     * into the recent list (which the storage slot then mirrors); on failure the list is left alone
     * and the error's message is reported. Either way loading ends.
     */
    method Settle(response: Response) returns (notice: Notice)
      requires Valid() && loading
      modifies this`loading, this`result, this`recent, this`slot
      ensures Valid() && !loading
      ensures response.Ok? ==>
        notice == Fetched && result == Some(response.data) && recent == Upsert(old(recent), response.data)
      ensures !response.Ok? ==> result == None && recent == old(recent)
      ensures response.NotOk? ==> notice == FetchFailed(NotFoundMessage)
      ensures response.Thrown? ==> notice == FetchFailed(response.message)
      ensures old(Bounded()) ==> Bounded()
      ensures response.Ok? ==> |recent| <= MaxRecent
    {
      if response.Ok? {
        result := Some(response.data);
        notice := Fetched;
        if UniqueIds(recent) {
          UpsertKeepsUnique(recent, response.data);
        }
        recent := Upsert(recent, response.data);
        slot := Some(recent);
      } else if response.NotOk? {
        notice := FetchFailed(NotFoundMessage);
      } else {
        notice := FetchFailed(response.message);
      }
      loading := false;
    }

    /** `fetchResult` run to completion with nothing happening while the request is in flight. */
    method FetchResult(response: Response) returns (outcome: SubmitOutcome, notice: Option<Notice>)
      requires Valid() && !loading
      modifies this`loading, this`result, this`recent, this`slot
      ensures Valid() && !loading && id == old(id)
      ensures Validate(id).Failure? ==>
        outcome == Rejected(Validate(id).error) && notice == None
        && result == old(result) && recent == old(recent)
      ensures Validate(id).Success? && response.Ok? ==>
        outcome == Requested(UsersEndpoint + id) && notice == Some(Fetched)
        && result == Some(response.data) && recent == Upsert(old(recent), response.data)
      ensures Validate(id).Success? && !response.Ok? ==>
        outcome == Requested(UsersEndpoint + id) && result == None && recent == old(recent)
      ensures Validate(id).Success? && response.NotOk? ==> notice == Some(FetchFailed(NotFoundMessage))
      ensures Validate(id).Success? && response.Thrown? ==> notice == Some(FetchFailed(response.message))
      ensures old(Bounded()) ==> Bounded()
    {
      outcome := Submit();
      if outcome.Rejected? {
        return outcome, None;
      }
      var n := Settle(response);
      notice := Some(n);
    }

    /** Dismissing the shown result clears it and changes nothing else. */
    method RemoveResult()
      requires Valid()
      modifies this`result
      ensures Valid()
      ensures result == None
    {
      result := None;
    }

    /**
     * Removing a card drops every entry with that user id, keeps the others in order, and the
     * storage slot mirrors the new list. The shown result is untouched.
     */
    method RemoveFromRecent(idToRemove: int)
      requires Valid()
      modifies this`recent, this`slot
      ensures Valid()
      ensures recent == WithoutId(old(recent), idToRemove)
      ensures Absent(recent, idToRemove)
      ensures Absent(old(recent), idToRemove) ==> recent == old(recent)
      ensures old(Bounded()) ==> Bounded()
    {
      if Absent(recent, idToRemove) {
        WithoutAbsentId(recent, idToRemove);
      }
      if UniqueIds(recent) {
        WithoutIdKeepsUnique(recent, idToRemove);
      }
      recent := WithoutId(recent, idToRemove);
      slot := Some(recent);
    }
  }

  /** From a fresh start, typing "1 1" stores "11", which the guard refuses without any effect. */
  method OutOfRangeSession(bob: UserRecord)
  {
    var c := new LookupController(None);
    c.SetInput("1 1");
    assert c.id == "11" by { assert "1 1"[1..] == " 1"; }
    assert Validate("11") == Failure(OutOfRange) by { ValidateExamples(); }
    var out, note := c.FetchResult(Ok(bob));
    assert out == Rejected(OutOfRange) && note == None && c.result == None && c.recent == [];
  }

  /** From a fresh start, fetching id 5 twice leaves one entry for it, holding the latest record. */
  method RefetchSession(alice: UserRecord, alice2: UserRecord)
    requires alice.id == 5 && alice2.id == 5
  {
    var c := new LookupController(None);
    c.SetInput("5");
    assert Validate("5") == Success(5);
    var out, note := c.FetchResult(Ok(alice));
    assert c.result == Some(alice) && c.recent == [alice] && c.slot == Some([alice]);
    out, note := c.FetchResult(Ok(alice2));
    RefetchReplaces([], alice, alice2);
    assert c.recent == [alice2];
    c.RemoveResult();
    c.RemoveFromRecent(5);
    assert c.result == None && c.recent == [] && c.slot == Some([]);
  }
}
