/** Creating a Glance image: waiting for one that gets active, creating it when there is
    none, and deleting again whatever was created but not used. */
module GlanceImage {
  import opened Prelude
  import opened GlanceRuns

  /** The image service: any answer is possible, but an image is found in a changing status
      only `patience` more times. */
  class GlanceClient {
    var log: seq<Event>
    var patience: nat

    method Record(e: Event)
      modifies this`log
      ensures OneMore(old(log), log, e)
      ensures Orphans(log) == match e
                              case Created(id) => old(Orphans(log)) + {id}
                              case DeleteAsked(id, _) => old(Orphans(log)) - {id}
                              case _ => old(Orphans(log))
      ensures Creates(log) == old(Creates(log)) + if IsCreate(e) then 1 else 0
    {
      log := log + [e];
      assert log[..|log| - 1] == old(log);
    }

    /** Looks for the image by its name. */
    method Find() returns (r: Outcome<Option<Image>, Error>)
      modifies this
      ensures r.Raise? ==> r.error == Foreign
      ensures OneMore(old(log), log, if r.Ok? then Got(r.value) else GetFailed)
      ensures Orphans(log) == old(Orphans(log)) && Creates(log) == old(Creates(log))
      ensures patience <= old(patience)
      ensures r.Ok? && IsChanging(r.value) ==> patience < old(patience)
    {
      var fails: bool := *;
      if fails {
        Record(GetFailed);
        return Raise(Foreign);
      }
      var answer: Option<Image> := *;
      if IsChanging(answer) {
        if patience == 0 {
          assert !IsChanging(None);
          answer :| !IsChanging(answer);
        } else {
          patience := patience - 1;
        }
      }
      Record(Got(answer));
      r := Ok(answer);
    }

    method Create() returns (r: Outcome<ImageId, Error>)
      modifies this`log
      ensures r.Raise? ==> r.error == Foreign
      ensures OneMore(old(log), log, if r.Ok? then Created(r.value) else CreateFailed)
      ensures Orphans(log) == old(Orphans(log)) + (if r.Ok? then {r.value} else {})
      ensures Creates(log) == old(Creates(log)) + 1
    {
      var fails: bool := *;
      var id: ImageId := *;
      r := if fails then Raise(Foreign) else Ok(id);
      Record(if fails then CreateFailed else Created(id));
    }

    /** A missing image counts as deleted; other errors are raised. */
    method Delete(id: ImageId) returns (r: Outcome<(), Error>)
      modifies this`log
      ensures r.Raise? ==> r.error == Foreign
      ensures OneMore(old(log), log, DeleteAsked(id, r.Raise?))
      ensures Orphans(log) == old(Orphans(log)) - {id} && Creates(log) == old(Creates(log))
    {
      var fails: bool := *;
      Record(DeleteAsked(id, fails));
      r := if fails then Raise(Foreign) else Ok(());
    }

    /** The image's data is read from somewhere else first. */
    method Upload(id: ImageId) returns (r: Outcome<(), Error>)
      modifies this`log
      ensures r.Raise? ==> r.error == Foreign
      ensures || (OneMore(old(log), log, DataFailed) && r.Raise?)
              || OneMore(old(log), log, Uploaded(id, r.Raise?))
      ensures Orphans(log) == old(Orphans(log)) && Creates(log) == old(Creates(log))
    {
      var dataFails: bool, fails: bool := *, *;
      Record(if dataFails then DataFailed else Uploaded(id, fails));
      r := if dataFails || fails then Raise(Foreign) else Ok(());
    }
  }

  class UploadGlanceImageFixture {
    const client: GlanceClient
    const createImageRetries: Option<int>
    const preventImageCreate: bool
    var image: Option<Image>

    constructor (client: GlanceClient, createImageRetries: Option<int>, preventImageCreate: bool)
      ensures this.client == client && image == None
      ensures this.createImageRetries == createImageRetries && this.preventImageCreate == preventImageCreate
    {
      this.client := client;
      this.createImageRetries := createImageRetries;
      this.preventImageCreate := preventImageCreate;
      this.image := None;
    }

    function CheckImageStatus(observed: Option<Image>, expected: set<Status>): Outcome<Option<Image>, Error> {
      if StatusOf(observed) !in expected then Raise(InvalidStatus(StatusOf(observed))) else Ok(observed)
    }

    method GetImage() returns (r: Outcome<Option<Image>, Error>)
      modifies this`image, client
      ensures r.Raise? ==> r.error == Foreign && image == old(image)
      ensures r.Ok? ==> image == r.value
      ensures OneMore(old(client.log), client.log, if r.Ok? then Got(r.value) else GetFailed)
      ensures Orphans(client.log) == old(Orphans(client.log)) && Creates(client.log) == old(Creates(client.log))
      ensures client.patience <= old(client.patience)
      ensures r.Ok? && IsChanging(r.value) ==> client.patience < old(client.patience)
    {
      r := client.Find();
      if r.Ok? {
        image := r.value;
      }
    }

    /** Looks at the cached image first, and again as long as that is worth waiting. */
    method LookUntilSettled(expected: set<Status>) returns (r: Outcome<Option<Image>, Error>)
      modifies this`image, client
      ensures old(client.log) <= client.log
      ensures Orphans(client.log) == old(Orphans(client.log)) && Creates(client.log) == old(Creates(client.log))
      ensures if r.Raise? then
                r.error == Foreign && WaitFailed(old(image), client.log, |old(client.log)|, |client.log|, expected)
              else
                && Waited(old(image), client.log, |old(client.log)|, |client.log|, expected)
                && r.value == image == Observed(old(image), client.log, |old(client.log)|, |client.log|)
    {
      r := Ok(image);
      if image.None? {
        r := GetImage();
      }
      while r.Ok? && r.value.Some? && r.value.value.status !in expected && IsChanging(r.value)
        invariant old(client.log) <= client.log
        invariant Orphans(client.log) == old(Orphans(client.log)) && Creates(client.log) == old(Creates(client.log))
        invariant if r.Raise? then
                    r.error == Foreign && WaitFailed(old(image), client.log, |old(client.log)|, |client.log|, expected)
                  else
                    && Looked(old(image), client.log, |old(client.log)|, |client.log|, expected)
                    && r.value == image == Observed(old(image), client.log, |old(client.log)|, |client.log|)
        decreases r.Ok?, client.patience, r.Ok? && IsChanging(r.value)
      {
        r := GetImage();
      }
    }

    /** Waits while the status is neither expected nor settled.  A cached image is looked at
        first, and not refreshed if its status is settled. */
    method WaitForImageStatus(expected: set<Status>, check: bool) returns (r: Outcome<Option<Image>, Error>)
      modifies this`image, client
      ensures old(client.log) <= client.log
      ensures Orphans(client.log) == old(Orphans(client.log)) && Creates(client.log) == old(Creates(client.log))
      ensures if r == Raise(Foreign) then
                WaitFailed(old(image), client.log, |old(client.log)|, |client.log|, expected)
              else
                && Waited(old(image), client.log, |old(client.log)|, |client.log|, expected)
                && image == Observed(old(image), client.log, |old(client.log)|, |client.log|)
                && r == if check && StatusOf(image) !in expected then Raise(InvalidStatus(StatusOf(image))) else Ok(image)
    {
      r := LookUntilSettled(expected);
      if r.Ok? && check {
        r := CheckImageStatus(r.value, expected);
      }
    }

    /** Deletes the image that was found, if any.  It is still cached while waiting for its
        deletion, so that wait does not look again: if the image is not deleted already, it
        always fails. */
    method DeleteFound(found: Option<Image>) returns (r: Outcome<(), Error>)
      requires found == image && !IsChanging(found)
      modifies this`image, client
      ensures image == found
      ensures Orphans(client.log) <= old(Orphans(client.log)) && Creates(client.log) == old(Creates(client.log))
      ensures if found == None then r.Ok? && client.log == old(client.log)
              else
                && |client.log| == |old(client.log)| + 1 && old(client.log) <= client.log
                && var e := client.log[|old(client.log)|];
                   && e.DeleteAsked? && e.id == found.value.id
                   && if e.failed then r == Raise(Foreign)
                      else if found.value.status == DELETED then r.Ok?
                      else r == Raise(InvalidStatus(found.value.status))
    {
      r := Ok(());
      if found.Some? {
        r := client.Delete(found.value.id);
        if r.Raise? { return; }
        var gone := WaitForImageStatus({DELETED}, true);
        if gone.Raise? { r := Raise(gone.error); }
      }
    }

    /** Deletes the image that was found, if any, and creates another one. */
    method CreateAnother(found: Option<Image>) returns (r: Outcome<ImageId, Error>)
      requires found == image && !IsChanging(found)
      modifies this`image, client
      ensures old(client.log) <= client.log
      ensures r.Ok? ==> image == None && r.value in Orphans(client.log)
      ensures Orphans(client.log) <= old(Orphans(client.log)) + (if r.Ok? then {r.value} else {})
      ensures old(Creates(client.log)) <= Creates(client.log) <= old(Creates(client.log)) + 1
      ensures Replaced(found, client.log, |old(client.log)|, |client.log|,
                       if r.Ok? then GoesOn(None) else Leaves(Raise(r.error)))
      ensures forall id :: CreatedIn(client.log, |old(client.log)|, |client.log|, id) <==> r == Ok(id)
    {
      var deleted := DeleteFound(found);
      if deleted.Raise? { return Raise(deleted.error); }
      image := None;
      ghost var n := |client.log|;
      r := client.Create();
      assert r.Ok? ==> client.log[n] == Created(r.value);
    }

    /** One turn of the loop below, `done` when it leaves the loop. */
    method TryOnce(left: nat) returns (done: bool, r: Outcome<Option<Image>, Error>, ids: set<ImageId>)
      modifies this`image, client
      ensures old(client.log) <= client.log
      ensures Turn(old(image), left, preventImageCreate, client.log, |old(client.log)|, |client.log|,
                   if done then Leaves(r) else GoesOn(image))
      ensures done && r.Ok? ==> IsGettingActive(r.value) && image == r.value
      ensures forall id :: CreatedIn(client.log, |old(client.log)|, |client.log|, id) <==> id in ids
      ensures Orphans(client.log) <= old(Orphans(client.log)) + ids
      ensures old(Creates(client.log)) <= Creates(client.log)
                                       <= old(Creates(client.log)) + if preventImageCreate || left == 0 then 0 else 1
      ensures r != Raise(UnboundLocal) && (!done ==> left > 0)
    {
      ids := {};
      r := WaitForImageStatus(GETTING_ACTIVE_STATUS, left == 0);
      done := r.Raise? || IsGettingActive(r.value);
      ghost var log, met := client.log, if r == Raise(Foreign) then None else Some(image);
      assert WaitEnded(old(image), log, |old(client.log)|, |log|, met);
      if !done && !preventImageCreate {
        var created := CreateAnother(r.value);
        WaitStays(old(image), log, client.log, |old(client.log)|, |log|, met);
        if created.Raise? {
          done, r := true, Raise(created.error);
        } else {
          ids := {created.value};
        }
      }
      assert Continued(met, left, preventImageCreate, client.log, |log|, |client.log|, if done then Leaves(r) else GoesOn(image));
    }

    /** Looks for an image that gets active, creating one each time there is none, until the
        retries are used up.  `ids` are the images created. */
    method ObtainImage(retries: int) returns (r: Outcome<Option<Image>, Error>, ids: set<ImageId>)
      modifies this`image, client
      ensures old(client.log) <= client.log
      ensures LoopRun(old(image), retries, preventImageCreate, client.log, |old(client.log)|, |client.log|, r)
      ensures r.Ok? ==> IsGettingActive(r.value) && image == r.value
      ensures forall id :: CreatedIn(client.log, |old(client.log)|, |client.log|, id) <==> id in ids
      ensures Orphans(client.log) <= old(Orphans(client.log)) + ids
      ensures Creates(client.log) <= old(Creates(client.log)) + if preventImageCreate then 0 else MaxInt(0, retries)
    {
      ids := {};
      r := Raise(UnboundLocal);
      var left := retries;
      while left >= 0
        invariant old(client.log) <= client.log && left <= retries && (retries >= 0 ==> left >= 0)
        invariant retries < 0 ==> left == retries && |client.log| == |old(client.log)| && r == Raise(UnboundLocal)
        invariant retries >= 0 ==>
                    Turns(old(image), retries, left, preventImageCreate, client.log, |old(client.log)|, |client.log|, image)
        invariant forall id :: CreatedIn(client.log, |old(client.log)|, |client.log|, id) <==> id in ids
        invariant Orphans(client.log) <= old(Orphans(client.log)) + ids
        invariant Creates(client.log) <= old(Creates(client.log)) + if preventImageCreate then 0 else retries - left
        decreases left
      {
        var done, more;
        ghost var log, cached := client.log, image;
        done, r, more := TryOnce(left);
        TurnsStay(old(image), retries, left, preventImageCreate, log, client.log, |old(client.log)|, |log|, cached);
        CreatedInTurn(old(client.log), log, client.log, ids, more);
        ids := ids + more;
        if done { break; }
        left := left - 1;
        assert TurnsAndOne(old(image), retries, left + 1, preventImageCreate, client.log, |old(client.log)|, |client.log|, image);
      }
    }

    method UploadImage() returns (r: Outcome<(), Error>)
      requires image.Some?
      modifies client`log
      ensures old(client.log) <= client.log
      ensures Orphans(client.log) == old(Orphans(client.log)) && Creates(client.log) == old(Creates(client.log))
      ensures if image.value.status != QUEUED then
                r == Raise(InvalidStatus(image.value.status)) && client.log == old(client.log)
              else
                && |client.log| == |old(client.log)| + 1
                && (|| (client.log[|old(client.log)|] == DataFailed && r == Raise(Foreign))
                    || (client.log[|old(client.log)|] == Uploaded(image.value.id, true) && r == Raise(Foreign))
                    || (client.log[|old(client.log)|] == Uploaded(image.value.id, false) && r.Ok?))
    {
      var checked := CheckImageStatus(image, {QUEUED});
      if checked.Raise? { return Raise(checked.error); }
      r := client.Upload(image.value.id);
    }

    method WaitForImageActive() returns (r: Outcome<Image, Error>)
      modifies this`image, client
      ensures old(client.log) <= client.log
      ensures Orphans(client.log) == old(Orphans(client.log)) && Creates(client.log) == old(Creates(client.log))
      ensures ActiveWait(old(image), client.log, |old(client.log)|, |client.log|, r)
    {
      var active := WaitForImageStatus({ACTIVE}, true);
      r := match active
        case Raise(error) => Raise(error)
        case Ok(found) => Ok(found.value);
    }

    /** Uploads the image that was taken if it is one of those created since `before`, and
        waits for it to be active. */
    method Activate(ids: set<ImageId>, ghost before: seq<Event>) returns (r: Outcome<Image, Error>)
      requires IsGettingActive(image) && before <= client.log
      requires forall id :: CreatedIn(client.log, |before|, |client.log|, id) <==> id in ids
      modifies this`image, client
      ensures old(client.log) <= client.log
      ensures Orphans(client.log) == old(Orphans(client.log)) && Creates(client.log) == old(Creates(client.log))
      ensures Finished(old(image).value, client.log, |before|, |old(client.log)|, |client.log|, r)
    {
      ghost var mid := client.log;
      if image.value.id in ids {
        var uploaded := UploadImage();
        if uploaded.Raise? {
          r := Raise(uploaded.error);
        } else {
          r := WaitForImageActive();
        }
      } else {
        r := WaitForImageActive();
      }
      CreatedInStays(mid, client.log, |before|, |mid|, old(image).value.id);
    }

    /** The body of the `with` block: `ids` are the created images that are not used. */
    method CreateAndActivate(retries: int) returns (r: Outcome<Image, Error>, ids: set<ImageId>)
      modifies this`image, client
      ensures old(client.log) <= client.log
      ensures BodyRun(old(image), retries, preventImageCreate, client.log, |old(client.log)|, |client.log|, r)
      ensures forall id :: id in ids <==>
                CreatedIn(client.log, |old(client.log)|, |client.log|, id) && !(r.Ok? && r.value.id == id)
      ensures Orphans(client.log) <= old(Orphans(client.log)) + ids + (if r.Ok? then {r.value.id} else {})
      ensures Creates(client.log) <= old(Creates(client.log)) + if preventImageCreate then 0 else MaxInt(0, retries)
    {
      var obtained;
      obtained, ids := ObtainImage(retries);
      if obtained.Raise? { return Raise(obtained.error), ids; }
      ghost var log := client.log;
      r := Activate(ids, old(client.log));
      LoopStays(old(image), retries, preventImageCreate, log, client.log, |old(client.log)|, |log|, obtained);
      NothingCreated(old(client.log), log, client.log, ids);
      if r.Ok? && r.value.id in ids {
        ids := ids - {r.value.id};
      }
    }

    /** Requests the deletion of each of these images, whatever errors that meets. */
    method DeleteCreated(ids: set<ImageId>)
      modifies client
      ensures old(client.log) <= client.log
      ensures Orphans(client.log) <= old(Orphans(client.log)) - ids && Creates(client.log) == old(Creates(client.log))
      ensures forall i :: |old(client.log)| <= i < |client.log| ==> client.log[i].DeleteAsked? && client.log[i].id in ids
      ensures forall id :: id in ids ==> IsDeletedIn(client.log, |old(client.log)|, id)
    {
      var todo := ids;
      while todo != {}
        invariant todo <= ids && old(client.log) <= client.log
        invariant Orphans(client.log) <= old(Orphans(client.log)) - (ids - todo)
        invariant Creates(client.log) == old(Creates(client.log))
        invariant forall i :: |old(client.log)| <= i < |client.log| ==> client.log[i].DeleteAsked? && client.log[i].id in ids
        invariant forall id :: id in ids && id !in todo ==> IsDeletedIn(client.log, |old(client.log)|, id)
        decreases todo
      {
        var id :| id in todo;
        ghost var before := client.log;
        var ignored := client.Delete(id);
        DeletedLonger(before, client.log, |old(client.log)|, ids - todo, id);
        todo := todo - {id};
      }
    }

    /** On the way out, normal or not, the deletion of every image created but not returned is
        requested. */
    method CreateAndCleanUp(retries: int) returns (r: Outcome<Image, Error>, ghost last: nat)
      modifies this`image, client
      ensures old(client.log) <= client.log
      ensures BodyRun(old(image), retries, preventImageCreate, client.log, |old(client.log)|, last, r)
      ensures CleanupRun(client.log, |old(client.log)|, last, r)
      ensures Orphans(client.log) <= old(Orphans(client.log)) + (if r.Ok? then {r.value.id} else {})
      ensures Creates(client.log) <= old(Creates(client.log)) + if preventImageCreate then 0 else MaxInt(0, retries)
    {
      var ids;
      r, ids := CreateAndActivate(retries);
      last := |client.log|;
      ghost var log := client.log;
      DeleteCreated(ids);
      BodyStays(old(image), retries, preventImageCreate, log, client.log, |old(client.log)|, last, r);
      CleanedUp(log, client.log, |old(client.log)|, ids, r);
    }

    /** Creates the image, with as many retries as the argument says, or else the fixture, or
        else one.  `met` is what the first wait ended on, None when it failed. */
    method CreateImage(retries: Option<int>)
      returns (r: Outcome<Image, Error>, ghost last: nat, ghost met: Option<Option<Image>>)
      modifies this`image, client
      ensures old(client.log) <= client.log
      ensures CleanupRun(client.log, |old(client.log)|, last, r)
      ensures Orphans(client.log) <= old(Orphans(client.log)) + (if r.Ok? then {r.value.id} else {})
      ensures var n := if retries.GetOr(0) != 0 then retries.value
                       else if createImageRetries.GetOr(0) != 0 then createImageRetries.value
                       else 1;
              && BodyRun(old(image), n, preventImageCreate, client.log, |old(client.log)|, last, r)
              && Creates(client.log) <= old(Creates(client.log)) + (if preventImageCreate then 0 else MaxInt(0, n))
              && (r == Raise(UnboundLocal) <==> n < 0)
              && (n < 0 ==> last == |old(client.log)|)
              && (n >= 0 ==> FirstWait(old(image), client.log, |old(client.log)|, met))
              && (n >= 0 && met == None ==> r == Raise(Foreign))
              && (n >= 0 && met.Some? ==> IsGettingActive(met.value) || IsStuck(met.value) || StatusOf(met.value) == DELETED)
              && (n >= 0 && met.Some? && IsStuck(met.value) ==> r.Raise?)
              && (n > 0 && met.Some? && !preventImageCreate ==>
                    || r == Raise(Foreign)
                    || (HasCreate(client.log, |old(client.log)|, last) <==> StatusOf(met.value) == DELETED))
    {
      met := None;
      r, last := CreateAndCleanUp(Retries(retries));
      UnboundIffNoRetries(old(image), Retries(retries), preventImageCreate, client.log, |old(client.log)|, last, r);
      if Retries(retries) >= 0 {
        met := FirstWaitDecidesAll(old(image), Retries(retries), preventImageCreate, client.log, |old(client.log)|, last, r);
      }
    }

    /** Python's `retries or self.create_image_retries or 1`. */
    function Retries(retries: Option<int>): int {
      if retries.Some? && retries.value != 0 then retries.value
      else if createImageRetries.Some? && createImageRetries.value != 0 then createImageRetries.value
      else 1
    }
  }
}
