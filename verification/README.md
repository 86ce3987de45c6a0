# Verified models of Tobiko's shared-resource protocols and algorithms

Tobiko runs tests against an OpenStack cloud.  Several workers share stacks, images and other
resources, which are created on demand, recorded on a shelf while tests use them, and deleted
when nobody does.  This project models the code behind that and proves what it keeps, in any
run and against any answers of the cloud:

* `Retry` is the retry generator: its limits, its pacing and when it stops.  `HeatStack` is the
  stack fixture, with `HeatProtocol`, the book-keeping of the calls that it makes, and `HeatRuns`,
  which tells the result of an attempt from its calls; `GlanceImage` and `GlanceRuns` are the
  same for image creation with its clean-up set; `QuotaLimits` is the raising of quotas.
* `Shelves`, `ShelfLocking` and `ShelfInit` are the registry of who uses what: each operation
  alone, any interleaving of the operations of many workers under their locks, and the wiping
  of the shelves at the start of a run.  `ResourceFixtures` is the fixture that relies on it, and
  `ResourceInterleavings` is what happens when its calls overlap.
* `ExcInfos`, `RequiredFixtures` (with `Names` and `Sorting`) and `Details` are the algorithms
  that flatten exceptions, close over required fixtures and name details without collisions.
* `DeepMerge`, `SsProcesses`, `Tables`, `TableDifference` and `Loader` are the configuration
  merge, the `ss` parser, the tables with their difference, and the object loader with its cache.
* `Lifecycle` is the set-up and clean-up of shared fixtures, and operations.

Code that updates objects is modelled by classes and methods in the shape of the original;
each is proved against functions and predicates about which the lemmas then speak.  Clients,
clocks and random numbers answer arbitrarily.  Calls to the cloud are logged, so properties of
runs are properties of logs.

## What was found

The proofs show where the code does less than its description:

* A wait that is given a time left of zero starts over with the whole default timeout
  (`Retry.ExhaustedTimeoutFallsBack`); a timeout alone does not bound attempts whose bodies
  take no time (`Retry.InstantBodiesNeverTimeOut`).
* A sweep of a test from a shelf takes a lock named after the test, not the shelf, and can undo
  another worker's registration; the interleavings are serial exactly when the test has the
  shelf's name (`ShelfLocking.SweepsAreSerialIffUnderTheShelfLock`).
* Without a run id each worker wipes the shelves again, and with them what other workers
  recorded; with one, registrations survive (`ShelfInit.RegistrationsSurviveIffRunId`).
* A worker that comes back after another one deleted the resource keeps using what it
  remembers.  Where calls do not overlap and workers run tests of their own, that is the only way
  to be set up without it
  (`ResourceFixtures.AlwaysServedIffNeverLeftBehind`, `ResourceFixtures.LeftBehindWhileAway`).
  Such a worker can also be the last one to leave, and then leaves behind what was created
  since (`ResourceFixtures.LastUserLeavesNothingIff`).
  When they overlap, a resource can be deleted between being found and being recorded as used
  (`ResourceInterleavings.ThereIffNoOverlap`), and two can be created
  (`ResourceInterleavings.OnlyOneIffNoneCreatedSince`).
* An image in a stuck status, such as `killed`, makes image creation fail always: the wait for
  its deletion looks at the cached image only.  What the first wait ends on decides
  (`GlanceImage.UploadGlanceImageFixture.CreateImage`), and that is the cached image or the first
  answer that is not worth waiting on (`GlanceRuns.CachedIsMet`, `GlanceRuns.FirstAnswerIsMet`).
* A Nova quota write after the tenth attempt never ends the loop while usage does not change
  (`QuotaLimits.SteadyUsage`).
* Merging is not associative in general; the exact condition is `DeepMerge.MergeIsAssociativeIff`.
* `get_processes` finds one name only, whatever the number of processes, and raises IndexError
  if the first name has parentheses (`SsProcesses.RoundTripIffSingle`).
* A leading empty dictionary breaks the promise that all rows of a table have the same keys
  (`Tables.FromRecords`).
* A module that is an attribute of its parent and differs from the one registered under the same
  name is found by the first load, but not by the second (`Loader.LoadTwice`).
* A set-up that raises is cleaned up the first time, but neither when it is tried again nor
  after a clean-up (`Lifecycle.FailedSetupIsCleanedIff`).
* Several exceptions that wrap no leaf are swallowed (`ExcInfos.EmptyWrappingIsSwallowed`).

## Model

| member | source | states |
|---|---|---|
| Retry.FirstGivenWins | tobiko/common/_retry.py:220-247 | each parameter is the first one that is given and not zero, of the call, the other retry and the defaults; times are not negative |
| Retry.ExhaustedTimeoutFallsBack | tobiko/common/_retry.py:220-247 | a wait that is handed the time left of another one keeps to it exactly while there is some left; a used-up limit counts as absent and the default applies in full |
| Retry.SlotIsProduct | tobiko/common/_retry.py:183-184 | the slot of an attempt is its number times the interval |
| Retry.SleepTime | tobiko/common/_retry.py:179-186 | the sleep computed by multiplication is that of the slot of the next attempt |
| Retry.LeftDecreases | tobiko/common/_retry.py:169-201 | why a limited loop ends: each attempt that is not the last uses up some of what was left |
| Retry.RetryLoop.Next | tobiko/common/_retry.py:169-201 | one resumption: raises exactly when the attempt it resumes was the last one, for the count before the time; otherwise yields the following attempt, which is not before its slot unless too little time was left |
| Retry.StartsOnSlotOrLater | tobiko/common/_retry.py:169-201 | with an interval, with or without a timeout, an attempt starts at the later of the end of the one before and its slot, unless the time left does not exceed the sleep; then at that end |
| Retry.StartsAfterSleep | tobiko/common/_retry.py:169-201 | with a sleep time, that much after the end of the one before, with the same exception |
| Retry.StartsAtEnd | tobiko/common/_retry.py:169-201 | with neither, at the end of the one before |
| Retry.PacingWithinTimeout | tobiko/common/_retry.py:169-201 | within a timeout, too, bodies that fit in the interval start exactly on their slots |
| Retry.PacingLaw | tobiko/common/_retry.py:169-201 | with an interval only, attempt n+1 starts at exactly the maximum over j of j intervals plus the bodies of attempts j+1 to n |
| Retry.PacingNeverDrifts | tobiko/common/_retry.py:169-201 | bodies that fit in the interval start exactly on their slots |
| Retry.LastIff | tobiko/common/_retry.py:75-126 | an attempt is the last one exactly if its number reaches the count or it started when the timeout was over |
| Retry.ReachedIff | tobiko/common/_retry.py:75-126 | an attempt takes place exactly if its number does not exceed the count and the one before started within the timeout |
| Retry.OverrunBound | tobiko/common/_retry.py:75-126 | a timeout is overrun by less than the previous body |
| Retry.ElapsedAtLeast | tobiko/common/_retry.py:169-201 | attempts are at least as late as their bodies are long |
| Retry.AttemptsBoundedByTimeout | tobiko/common/_retry.py:88-103 | bodies of at least e seconds allow fewer than T/e + 2 attempts |
| Retry.AttemptsBoundedByCount | tobiko/common/_retry.py:75-103 | there are never more than max(1, count) attempts |
| Retry.InstantBodiesNeverTimeOut | tobiko/common/_retry.py:169-201 | with bodies that take no time, any number of attempts stays below the timeout |
| Retry.CallOnce | tobiko/common/_retry.py:284-290 | one attempt of the wrapper: its start, its end, and whether the wrapper ends with it |
| Retry.CallNext | tobiko/common/_retry.py:284-290 | one call more: its time and number are those of the attempt, and how it ends |
| Retry.RetryOnException | tobiko/common/_retry.py:276-294 | the wrapper calls the function again exactly after a listed exception that was not of the last attempt and that the callback accepted; it ends with the result or the exception of the last call, or with that of the callback, as the outcome of that call says |
| HeatProtocol.OrphansAreUndeleted | tobiko/openstack/heat/_stack.py:256-292 | the ledger's orphans are exactly the created ids for which no delete was asked since |
| HeatProtocol.CreatesAreCounted | tobiko/openstack/heat/_stack.py:256-267 | the ledger counts the create calls of the run |
| HeatProtocol.NameDeletesAreCounted | tobiko/openstack/heat/_stack.py:200-206 | and the deletions by name |
| HeatProtocol.AbsentMeans | tobiko/openstack/heat/_stack.py:347-359 | absence means that the last call was a look-up that found nothing |
| HeatProtocol.CreatesFollowAbsence | tobiko/openstack/heat/_stack.py:229-267 | in a legal run each create call directly follows a look-up that found no stack and the preparation of quotas and resources |
| HeatProtocol.DeletesAreJustified | tobiko/openstack/heat/_stack.py:241-292 | in a legal run a stack is deleted by id only if the run created it or saw it failed last |
| HeatProtocol.SeenIsLastSeen | tobiko/openstack/heat/_stack.py:347-359 | the ledger's last observation is the answer of the last look-up that succeeded |
| HeatRuns.ForeignMeansFailure | tobiko/openstack/heat/_stack.py:185-297 | an exception of another kind leaves only if the last call of the log is a look-up, preparation, creation or deletion that failed |
| HeatRuns.PreparedIsFollowed | tobiko/openstack/heat/_stack.py:252-267 | in every attempt a preparation that succeeds is directly followed by the create call |
| HeatRuns.CreatedIsReturned | tobiko/openstack/heat/_stack.py:229-297 | when there is no stack and no call fails, the stack created is returned, after exactly these four calls |
| HeatStack.CheckStackStatus | tobiko/openstack/heat/_stack.py:639-664 | accepts exactly the expected statuses; any other is an invalid fixture that carries the status |
| HeatStack.Verdict | tobiko/openstack/heat/_stack.py:464-473 | a checked wait returns exactly when the status is expected, a missing stack counting as deleted |
| HeatStack.HeatStackFixture.constructor | tobiko/openstack/heat/_stack.py:127-146 | a new fixture remembers no stack |
| HeatStack.HeatStackFixture.WaitLimits | tobiko/openstack/heat/_stack.py:429-433 | a wait has the timeout and interval it is given, or else the fixture's |
| HeatStack.HeatStackFixture.CreateLimits | tobiko/openstack/heat/_stack.py:189-192 | attempts have the fixture's count and timeout, or else those of the retry given |
| HeatStack.HeatStackFixture.GetStack | tobiko/openstack/heat/_stack.py:347-359 | one look-up, whose answer is cached; a failure leaves the cache as it is |
| HeatStack.HeatStackFixture.DeleteStack | tobiko/openstack/heat/_stack.py:325-345 | forgets the cached stack and asks for one deletion, by the given id or else by name |
| HeatStack.HeatStackFixture.Observe | tobiko/openstack/heat/_stack.py:435-439 | the cached stack if it may be used and there is one, or else one look-up |
| HeatStack.HeatStackFixture.Look | tobiko/openstack/heat/_stack.py:429-439 | one attempt of the wait and what it leaves of the limits |
| HeatStack.HeatStackFixture.LookMore | tobiko/openstack/heat/_stack.py:429-462 | the same attempt in the course of a wait: it ends the wait, or was worth waiting on |
| HeatStack.HeatStackFixture.Poll | tobiko/openstack/heat/_stack.py:429-462 | ends on the first observation that is expected or settled, or when the time is used up; all earlier ones were worth waiting on; no look-up begins before its slot unless too little time is left; it always ends |
| HeatStack.HeatStackFixture.WaitForStackStatus | tobiko/openstack/heat/_stack.py:421-473 | makes look-ups only, in the pace of the interval given or else the fixture's; the result is the verdict on the last observation; None only after a look-up that found nothing |
| HeatStack.HeatStackFixture.WaitForDeleteComplete | tobiko/openstack/heat/_stack.py:373-383 | the wait above for the deleted status; None exactly if its last look-up is the first one that finds nothing |
| HeatStack.HeatStackFixture.AwaitDeletion | tobiko/openstack/heat/_stack.py:390-399 | one attempt of waiting for the stack to disappear |
| HeatStack.HeatStackFixture.WaitUntilStackDeleted | tobiko/openstack/heat/_stack.py:385-419 | returns exactly with the first look-up that finds nothing, and then no stack is cached; otherwise a look-up failed, or the exception is the one for the status found last: still present, not deleted, or another one, an operation under way only when the time is used up; the else branch of its loop is not reached |
| HeatStack.HeatStackFixture.ValidateCreatedStack | tobiko/openstack/heat/_stack.py:224-227 | looks while something other than a creation is under way, and the last observation decides: a stack that is being created or was is returned, any other one raised with its status, and none is not found; no call is made for a cached stack that is not busy |
| HeatStack.HeatStackFixture.ClearStack | tobiko/openstack/heat/_stack.py:241-249 | a failed stack is deleted by its id first, any other one is only waited for; returns exactly with the first look-up that finds nothing |
| HeatStack.HeatStackFixture.AdoptStack | tobiko/openstack/heat/_stack.py:271-292 | the stack found by the wait is returned; the created id is deleted exactly if that is another one or is not accepted, and if that deletion fails its exception is raised |
| HeatStack.HeatStackFixture.CreateNewStack | tobiko/openstack/heat/_stack.py:252-297 | prepares, then creates, then judges the stack that the following wait finds, whether the id is new or in conflict; each call that fails ends it; what it created is returned, or deleted, or left by another kind of exception |
| HeatStack.HeatStackFixture.Proceed | tobiko/openstack/heat/_stack.py:235-297 | for each status found: an accepted stack is returned without another call, a failed one is deleted by its id, a deleted one waited for, and only where there is none is one created, as above; any other status is raised without another call |
| HeatStack.HeatStackFixture.TryCreateStack | tobiko/openstack/heat/_stack.py:229-297 | the log of an attempt determines its result: a first wait, all but the last observation of an operation under way other than a creation, and then as above for what it ends on; the assertion before creation holds on every path |
| HeatStack.HeatStackFixture.TryAndDelete | tobiko/openstack/heat/_stack.py:193-217 | an attempt, as above, that ends in an invalid fixture, and is not the last one, is followed by one deletion by name; any other one ends the rounds with its result |
| HeatStack.HeatStackFixture.CreationRound | tobiko/openstack/heat/_stack.py:189-217 | one round of retrying: another one follows exactly an invalid fixture that was not the last, after one deletion by name |
| HeatStack.HeatStackFixture.CreateInRounds | tobiko/openstack/heat/_stack.py:189-218 | the rounds: all but the last one ended in an invalid fixture and a deletion by name, after which no stack is cached; the result is that of the last attempt by its calls in the log, or of the deletion that failed |
| HeatStack.HeatStackFixture.CreateStack | tobiko/openstack/heat/_stack.py:185-218 | at most `retry_count` attempts and as many create calls, of which the last one gives the result; a returned stack was last seen being created or complete; every id created is the returned one or asked to be deleted, unless another kind of exception leaves; an invalid fixture leaves only when the limits are used up; when creation is prevented the stack is only looked at |
| HeatStack.HeatStackFixture.CleanupFixture | tobiko/openstack/heat/_stack.py:311-323 | does nothing while tests use the stack; otherwise deletes it by name and returns exactly with the first look-up that finds nothing |
| Shelves.ShelfFile.AddMeToSharedResource | tobiko/common/_shelves.py:48-70 | the shelf afterwards and the users returned |
| Shelves.ShelfFile.RemoveMeFromSharedResource | tobiko/common/_shelves.py:73-95 | the shelf afterwards and the users returned |
| Shelves.ShelfFile.RemoveTestFromShelfResources | tobiko/common/_shelves.py:98-113 | alone, removes the test from every resource and changes nothing else |
| Shelves.MembersAreUsers | tobiko/common/_shelves.py:48-113 | after any history, a test is on the shelf exactly if it added itself and was not removed since |
| Shelves.EmptyMeansUnused | tobiko/common/_shelves.py:48-95 | a set of users is empty exactly when nobody uses the resource |
| Shelves.CleanupDecision | tobiko/openstack/heat/_stack.py:311-319 | in a serial history a removal returns the empty set exactly when every test that added itself was removed since |
| ShelfLocking.LockNamesDiffer | tobiko/common/_lockutils.py:54-79 | calls exclude each other exactly when their first arguments are equal |
| ShelfLocking.MidwayAdvances | tobiko/common/_shelves.py:48-113 | each read and each write of an operation brings the shelf closer to what the whole operation does |
| ShelfLocking.OperationEnds | tobiko/common/_shelves.py:48-113 | an operation that nobody interrupts ends, wherever it is, with what the whole operation does and returns |
| ShelfLocking.InterleavingsAreSerial | tobiko/common/_lockutils.py:54-96 | any interleaving of operations under the shelf's lock is serial: each returns what it would if they ran one by one in lock order |
| ShelfLocking.DeletesOnlyWhenUnused | tobiko/openstack/base/_fixture.py:179-186 | in every interleaving of additions and removals, the decision to delete is taken exactly when nobody uses the resource |
| ShelfLocking.SweepLosesAnAddition | tobiko/common/_shelves.py:98-113 | an interleaved sweep makes a registration disappear, and the next removal returns the empty set while a test uses the resource |
| ShelfLocking.SweepsAreSerialIffUnderTheShelfLock | tobiko/common/_shelves.py:98-113 | sweeps of a test keep all interleavings serial exactly when the test has the shelf's name |
| ShelfInit.InvHolds | tobiko/common/_shelves.py:160-197 | the invariant of all interleavings of initialising and registering workers |
| ShelfInit.WipedExactlyOnce | tobiko/common/_shelves.py:160-197 | exactly one call of a new run wipes the shelves, nothing of earlier runs is left once a call returned, and nothing registered after a call is wiped |
| ShelfInit.InvRecordedHolds | tobiko/common/_shelves.py:178-182 | where the run id is recorded already no call wipes anything |
| ShelfInit.KeptIffNamed | tobiko/common/_shelves.py:189-192 | the files kept are those with test_run in their names |
| ShelfInit.KeptFilesStay | tobiko/common/_shelves.py:190-194 | in every run nothing is lost from them |
| ShelfInit.CallEnds | tobiko/common/_shelves.py:160-197 | in every run a call returns if its worker goes on, and gives the lock back |
| ShelfInit.RegistrationsSurviveIffRunId | tobiko/common/_shelves.py:160-197 | what a worker registers after its own call survives in every run, whatever was recorded before, exactly when the run has an id |
| ShelfInit.WithoutRunIdRegistrationsAreLost | tobiko/common/_shelves.py:175-177 | without a run id a registration of one worker can be wiped by another one |
| ResourceFixtures.ResourceFixture.GetResource | tobiko/openstack/base/_fixture.py:135-143 | the cached resource, or else the one found |
| ResourceFixtures.ResourceFixture.TryCreateResource | tobiko/openstack/base/_fixture.py:172-177 | creates the resource only if none is cached or found |
| ResourceFixtures.ResourceFixture.SetupFixture | tobiko/openstack/base/_fixture.py:157-170 | the test is recorded exactly when there is a resource, and no other resource's users change |
| ResourceFixtures.ResourceFixture.CleanupFixture | tobiko/openstack/base/_fixture.py:179-194 | the test is removed; if no test is left, what is remembered, or else found, is deleted and forgotten, and nothing else is deleted |
| ResourceFixtures.HoldsIffNotLost | tobiko/openstack/base/_fixture.py:135-194 | after every history of calls, what a worker remembers is the existing resource exactly if, since it got hold of it, no other worker that had not lost it itself cleaned up and left no users |
| ResourceFixtures.LastUserLeavesNothingIff | tobiko/openstack/base/_fixture.py:179-194 | after a clean-up that leaves no users there is no resource exactly if there was none or its worker had not lost what it remembered |
| ResourceFixtures.LastUserLeavesOne | tobiko/openstack/base/_fixture.py:135-194 | a run that ends with a resource and no users |
| ResourceFixtures.AlwaysServedIffNeverLeftBehind | tobiko/openstack/base/_fixture.py:135-194 | where workers clean up only what they set up, or while they remember nothing, workers that are set up always have the resource that they remember exactly if none is set up although another worker's clean-up left no users since it got hold of it |
| ResourceFixtures.LeftBehindWhileAway | tobiko/openstack/base/_fixture.py:157-186 | with tests of its own, a worker is left behind only between its clean-up and its next set-up |
| ResourceFixtures.ReturningWorkerIsStale | tobiko/openstack/base/_fixture.py:135-194 | a run that ends with a user and no resource |
| ResourceFixtures.OnceEachIsServed | tobiko/openstack/base/_fixture.py:157-194 | workers with tests of their own that are set up once, before they clean up, always have the resource |
| ResourceInterleavings.InvHolds | tobiko/openstack/base/_fixture.py:135-194 | the invariant of all interleavings of look-ups, creations, deletions and shelf updates |
| ResourceInterleavings.ThereIffNotDeleted | tobiko/openstack/base/_fixture.py:135-194 | in every interleaving, a worker that is set up has the resource that it remembers exactly if nobody deleted it |
| ResourceInterleavings.DeletionTakes | tobiko/openstack/base/_fixture.py:135-194 | who deletes what a worker uses, and when: always another worker, after this one got hold of it, in a clean-up whose removal came before the worker added its test, or after somebody else removed that test |
| ResourceInterleavings.ThereIffNotTaken | tobiko/openstack/base/_fixture.py:135-194 | the resource is there exactly if no deletion was made by another worker, after this one got hold of it, in a clean-up whose removal came before the worker added its test, or after somebody else removed that test |
| ResourceInterleavings.StepsAreNumbered | tobiko/openstack/base/_fixture.py:135-194 | the recorded times are those of the steps of the run |
| ResourceInterleavings.DeletionOverlaps | tobiko/openstack/base/_fixture.py:135-194 | with tests of its own, a worker loses what it uses only to another worker's clean-up that overlaps, from removal to deletion, the time from getting hold of it to adding the test |
| ResourceInterleavings.ThereIffNoOverlap | tobiko/openstack/base/_fixture.py:135-194 | so it has its resource exactly if there was no such clean-up; that every deletion overlaps is the half that takes the proof |
| ResourceInterleavings.OnlyOneIffNoneCreatedSince | tobiko/openstack/base/_fixture.py:172-177 | a creation makes the only resource exactly if all that was created since the look-up before it was deleted |
| ResourceInterleavings.BothCreate | tobiko/openstack/base/_fixture.py:172-177 | two workers that look at the same time create two resources |
| ResourceInterleavings.OverlapTakesTheResource | tobiko/openstack/base/_fixture.py:157-194 | a set-up that overlaps the last clean-up ends with a user and no resource, although the shelf is locked for each update |
| ResourceInterleavings.CallIsItsSteps | tobiko/openstack/base/_fixture.py:157-194 | a call that nothing interrupts does what its steps do |
| ResourceInterleavings.HistoryIsRun | tobiko/openstack/base/_fixture.py:157-194 | every history of calls that do not overlap is one of the interleavings |
| ExcInfos.ListExcInfos | tobiko/common/_exception.py:157-173 | ends on every structure, cyclic ones too, with the recursive left-to-right flattening |
| ExcInfos.VisitNext | tobiko/common/_exception.py:161-172 | one turn of its loop keeps result and stack together at the flattening |
| ExcInfos.FlattenAppend | tobiko/common/_exception.py:161-172 | a list is flattened from left to right |
| ExcInfos.FlattenLeaf | tobiko/common/_exception.py:161-172 | an exception that wraps nothing is listed once |
| ExcInfos.FlattenUnwrap | tobiko/common/_exception.py:161-172 | unwrapping an exception in the stack is flattening it in place |
| ExcInfos.FlattenListsReachableLeaves | tobiko/common/_exception.py:157-173 | the result lists exactly the reachable exceptions that wrap nothing, each once |
| ExcInfos.HandleMultipleExceptions | tobiko/common/_exception.py:136-154 | raises the first leaf again and hands each other one to the handler, once and in order, even if the handler raises |
| ExcInfos.EmptyWrappingIsSwallowed | tobiko/common/_exception.py:136-154 | nothing is raised again exactly when all that is reachable wraps others |
| Names.ParentEndsAtLastDot | tobiko/common/_loader.py:46-54 | the parent's name is what precedes the last dot |
| Names.ParentOf | tobiko/common/_loader.py:46-54 | of parent and base with a dot between them, the parent, if there is no dot in the base |
| RequiredFixtures.NamesToFollow | tobiko/common/_fixture.py:342-352 | what a visited object adds is exactly what it leads to |
| RequiredFixtures.VisitNext | tobiko/common/_fixture.py:323-335 | one turn of the visit keeps all that is still to be reached behind the worklist, and makes progress |
| RequiredFixtures.ListRequiredFixtures | tobiko/common/_fixture.py:338-356 | ends on every requirement graph with the sorted names, without duplicates, of exactly the fixtures reachable from the roots |
| RequiredFixtures.ListedIffCovered | tobiko/common/_fixture.py:338-356 | the fixtures listed are those in the least set that has the roots, what its objects require, and the class that its test methods are named after |
| RequiredFixtures.RootOrderDoesNotMatter | tobiko/common/_fixture.py:338-356 | the list is the same for any order or repetition of the roots |
| RequiredFixtures.RootsAddUp | tobiko/common/_fixture.py:338-356 | what several roots reach is what one or the other reaches |
| Sorting.Sort | tobiko/common/_fixture.py:355-355 | sorts, and keeps what is in the list as often as it is |
| Sorting.LeqIsDictionaryOrder | tobiko/common/_fixture.py:355-355 | one name comes before another if it ends or has the lesser character where they first differ |
| Sorting.SortedIsUnique | tobiko/common/_fixture.py:355-355 | a sorted list without duplicates is determined by what is in it |
| Details.CandidatesDiffer | tobiko/common/_detail.py:52-59 | numbered names of one detail are different |
| Details.DecimalIsInjective | tobiko/common/_detail.py:57-57 | different numbers are written differently |
| Details.DecimalSaysTheNumber | tobiko/common/_detail.py:57-57 | the digits written read as the number |
| Details.CandidateNames | tobiko/common/_detail.py:52-59 | the names tried: the name itself, then with a dash and a number |
| Details.GetUniqueDetailName | tobiko/common/_detail.py:52-59 | ends for every target, with the first candidate that is free or holds the same content |
| Details.AddedIsSettled | tobiko/common/_detail.py:30-49 | adding a detail changes no entry, settles it, and does nothing if it was settled |
| Details.SettledHolds | tobiko/common/_detail.py:30-49 | a settled detail is held under its name or a numbered one with its content id |
| Details.Target.GatherOne | tobiko/common/_detail.py:34-49 | the effect of gathering one detail, readable or not |
| Details.Target.GatherDetails | tobiko/common/_detail.py:30-49 | existing entries stay, new ones are copies of the source's, all details are settled, and gathering the same source again changes nothing |
| GlanceRuns.OrphansAreUndeleted | tobiko/openstack/glance/_image.py:273-286 | the orphans are exactly the created ids for which no deletion was requested since |
| GlanceRuns.CreatesAreCounted | tobiko/openstack/glance/_image.py:237-242 | the count of create calls is that of the log |
| GlanceImage.UploadGlanceImageFixture.GetImage | tobiko/openstack/glance/_image.py:123-130 | one look-up by name, whose answer is cached |
| GlanceRuns.WhatIsWaitedOn | tobiko/openstack/glance/_image.py:164-178 | status by status, which images get active, are waited on, or are stuck |
| GlanceRuns.CachedIsMet | tobiko/openstack/glance/_image.py:164-174 | a first wait that starts with a cached image not worth waiting on ends on that one |
| GlanceRuns.FirstAnswerIsMet | tobiko/openstack/glance/_image.py:164-174 | any other first wait ends on the first answer in the log that is not worth waiting on, unless a look-up before it failed |
| GlanceRuns.FirstWaitDecides | tobiko/openstack/glance/_image.py:217-250 | what the first wait ends on decides the loop: an image that gets active is taken, a stuck one makes it fail, and only where there is none is one created |
| GlanceRuns.FirstWaitDecidesAll | tobiko/openstack/glance/_image.py:217-263 | the same for the whole body: a stuck image makes it always fail, and creation is tried exactly if the first wait finds no image |
| GlanceRuns.UnboundIffNoRetries | tobiko/openstack/glance/_image.py:217-252 | `image` is unbound exactly if the number of retries is negative, and then no call is made |
| GlanceRuns.ForeignMeansFailure | tobiko/openstack/glance/_image.py:217-263 | an exception of another kind leaves only if the last call before the clean-up failed |
| GlanceRuns.CreatedIsUploaded | tobiko/openstack/glance/_image.py:217-263 | when there is no image and no call fails, the one created is uploaded and, once active, returned, after exactly these calls |
| GlanceImage.UploadGlanceImageFixture.LookUntilSettled | tobiko/openstack/glance/_image.py:164-174 | the loop of the wait: exactly which look-ups it makes, and that it ends on the cached image or the last answer |
| GlanceImage.UploadGlanceImageFixture.WaitForImageStatus | tobiko/openstack/glance/_image.py:164-187 | makes look-ups only, all but the last of them answered with an image worth waiting on, and ends on the last answer, or on the cached image if that is not worth waiting on; raises exactly if a look-up fails or the status is checked and not expected |
| GlanceImage.UploadGlanceImageFixture.DeleteFound | tobiko/openstack/glance/_image.py:228-233 | asks for one deletion and then looks at the cached image only, so an image that is not deleted already makes it fail without any look-up |
| GlanceImage.UploadGlanceImageFixture.CreateAnother | tobiko/openstack/glance/_image.py:228-243 | what is found is deleted first; an image that is not deleted already makes it fail, and nothing else but failing calls does |
| GlanceImage.UploadGlanceImageFixture.TryOnce | tobiko/openstack/glance/_image.py:220-245 | one turn of the loop by its calls in the log, which determine whether it leaves the loop and how |
| GlanceImage.UploadGlanceImageFixture.ObtainImage | tobiko/openstack/glance/_image.py:217-250 | the whole loop by its calls: turns from the given number of retries down, of which the last one leaves it; at most as many images as retries are created, all of them in the clean-up set |
| GlanceImage.UploadGlanceImageFixture.UploadImage | tobiko/openstack/glance/_image.py:288-295 | uploads to a queued image only |
| GlanceImage.UploadGlanceImageFixture.CreateAndActivate | tobiko/openstack/glance/_image.py:217-263 | the loop and what follows by their calls: an image that was created in the loop is uploaded, which only a queued one allows, and then waited for; the others created are still in the clean-up set |
| GlanceImage.UploadGlanceImageFixture.WaitForImageActive | tobiko/openstack/glance/_image.py:150-152 | the wait for an active image, and how its last observation is judged |
| GlanceImage.UploadGlanceImageFixture.Activate | tobiko/openstack/glance/_image.py:252-263 | uploads exactly an image that was created here, then waits for it to be active; a call that fails ends it |
| GlanceImage.UploadGlanceImageFixture.DeleteCreated | tobiko/openstack/glance/_image.py:273-286 | requests the deletion of each of the images, and no other call, whatever errors that meets |
| GlanceImage.UploadGlanceImageFixture.CreateAndCleanUp | tobiko/openstack/glance/_image.py:217-286 | the body, then the deletion of exactly the images created but not returned |
| GlanceImage.UploadGlanceImageFixture.CreateImage | tobiko/openstack/glance/_image.py:217-286 | with k retries, the argument's number, or else the fixture's, or else one: the calls of the body and of the clean-up determine the result; at most max(0, k) images are created; `UnboundLocalError` exactly for a negative k; the first wait decides as above; on every exit the deletion of each image created is requested, except of the active one returned |
| QuotaLimits.RaisedExactly | tobiko/openstack/neutron/_quota_set.py:105-121 | a limit is written exactly if it is not negative and less than used, reserved and needed together, or equal to that for Nova; that sum and the extra is written |
| QuotaLimits.QuotaLimitsOfLoop | tobiko/openstack/neutron/_quota_set.py:60-63 | the loop's timeout and interval, 60 and 3 seconds unless they are given |
| QuotaLimits.GetQuotaLimitsIncrease | tobiko/openstack/nova/_quota_set.py:104-128 | exactly the limits that are too low, with what covers usage, reservations and need |
| QuotaLimits.WritesOnlyRaise | tobiko/openstack/neutron/_quota_set.py:97-121 | a write never lowers a limit, introduces one or touches one that is not required |
| QuotaLimits.RaiseLimits | tobiko/openstack/neutron/_quota_set.py:66-88 | writes exactly when something lacks and the attempt is not the last one, and writes what the law above says, with 10//k to spare at attempt k; each other result is tied to what was read |
| QuotaLimits.QuotaRound | tobiko/openstack/neutron/_quota_set.py:60-88 | one attempt: done only if nothing lacks; otherwise one write, which takes effect or fails |
| QuotaLimits.NextRound | tobiko/openstack/neutron/_quota_set.py:60-88 | what a round adds to the run: its calls, what it read, and how it ends |
| QuotaLimits.RaiseUntilEnough | tobiko/openstack/neutron/_quota_set.py:60-88 | the calls of the loop: a read and a write for each attempt but the last, whose read decides |
| QuotaLimits.EnsureQuotaLimits | tobiko/openstack/neutron/_quota_set.py:51-88 | limits are only raised; the log consists of a read and a write for each attempt and a last read, and no read begins before its slot unless too little time is left; it returns only when the last read shows that every required limit that is not negative covers used, reserved and needed together, strictly for Nova, and gives up only when the time is used up, or a quota is missing, or the read fails; nothing is asked when nothing is required |
| QuotaLimits.EnsureNovaQuotaLimits | tobiko/openstack/nova/_quota_set.py:50-95 | the same for the project, and then for the user unless the project's failed |
| QuotaLimits.WriteSuffices | tobiko/openstack/nova/_quota_set.py:104-128 | a write at attempt k suffices exactly for a growth of at most 10//k for Neutron, and below 10//k for Nova |
| QuotaLimits.SteadyUsage | tobiko/openstack/nova/_quota_set.py:68-95 | while usage does not change, a limit that was too low at attempt n is too low again at a later attempt exactly for Nova and n > 10 |
| QuotaLimits.LateWritesLeaveNothing | tobiko/openstack/nova/_quota_set.py:68-95 | such writes set the limit to what is required, which Nova's test never accepts |
| QuotaLimits.RunReads | tobiko/openstack/nova/_quota_set.py:68-95 | the attempts of a run whose writes take effect read what the sequence above says |
| QuotaLimits.SteadyRun | tobiko/openstack/nova/_quota_set.py:68-95 | the same in a run of the loop, which does not end normally then |
| DeepMerge.MergeInto | tobiko/openstack/keystone/_clouds_file.py:40-52 | the loop computes the merge, in whatever order it takes the items |
| DeepMerge.MergeAlongPath | tobiko/openstack/keystone/_clouds_file.py:40-52 | what the merge holds along every path |
| DeepMerge.OverrideLeavesWin | tobiko/openstack/keystone/_clouds_file.py:40-52 | a leaf of the override is found in the merge at its path |
| DeepMerge.MergeWithItself | tobiko/openstack/keystone/_clouds_file.py:40-52 | merge(x, x) = x |
| DeepMerge.MergeTwice | tobiko/openstack/keystone/_clouds_file.py:40-52 | merge(merge(b, o), o) = merge(b, o) |
| DeepMerge.MergeIsOverrideIffCovered | tobiko/openstack/keystone/_clouds_file.py:40-52 | exactly when the merge is just the override |
| DeepMerge.MergeIsAssociativeIff | tobiko/openstack/keystone/_clouds_file.py:40-52 | exactly when the order of two merges does not matter |
| DeepMerge.MergeIsAssociative | tobiko/openstack/keystone/_clouds_file.py:40-52 | it does not when no path has a leaf between two dictionaries |
| SsProcesses.NextQuote | tobiko/shell/ss.py:181-183 | the first quote from a position on |
| SsProcesses.GetProcesses | tobiko/shell/ss.py:158-184 | the loop with its stack computes the parse, for every text |
| SsProcesses.FirstNameIsFound | tobiko/shell/ss.py:158-184 | of a list printed in the documented form only the first name is found, if that one is plain and each later one is plain or has one pair of parentheses |
| SsProcesses.ParsePrinted | tobiko/shell/ss.py:158-184 | popping at depth one would find all names without parentheses in order |
| SsProcesses.QuotedIsNested | tobiko/shell/ss.py:158-184 | names such as (sd-pam) have something in parentheses |
| SsProcesses.ParenthesizedFirstRaises | tobiko/shell/ss.py:158-184 | where the first name has something in parentheses IndexError is raised, with the pop or without it |
| SsProcesses.RoundTripIffSingle | tobiko/shell/ss.py:158-184 | printing and parsing gives the names back exactly for one process whose name has no parentheses |
| SsProcesses.NoProcessRaises | tobiko/shell/ss.py:158-184 | an empty list raises IndexError |
| SsProcesses.PlainText | tobiko/shell/ss.py:181-183 | a text without parentheses gives what is between its first quote and the second one or the end, and IndexError without a quote |
| SsProcesses.UnmatchedRaises | tobiko/shell/ss.py:164-180 | a parenthesis that closes nothing raises IndexError |
| SsProcesses.UnclosedFindsNothing | tobiko/shell/ss.py:164-184 | one that is not closed finds nothing |
| Tables.TableData.ValidateItem | tobiko/common/_tabledata.py:264-286 | which items are accepted, with which error otherwise, and the schema afterwards |
| Tables.TableData.Append | tobiko/common/_tabledata.py:288-291 | appends accepted items only, changes nothing otherwise, and keeps the rows' promise |
| Tables.TableData.SetColumns | tobiko/common/_tabledata.py:242-257 | renames all rows, or changes nothing |
| Tables.FromRecords | tobiko/common/_tabledata.py:61-89 | exactly which dictionaries make a table, and exactly when its rows have the same keys |
| Tables.FromTuples | tobiko/common/_tabledata.py:69-77 | exactly which tuples make a table with the given columns |
| Tables.ZipLastWins | tobiko/common/_tabledata.py:69-77 | of equal columns the last one's cell counts |
| Tables.RenameBack | tobiko/common/_tabledata.py:242-257 | renaming columns back restores a row exactly when columns of the same new name held the same value |
| TableDifference.IsIgnored | tobiko/rhosp/containers.py:88-96 | a row is ignored exactly if some ignored text is part of its container's name; without a name that is a KeyError |
| TableDifference.RemoveContainers | tobiko/rhosp/containers.py:80-100 | keeps the other rows in order, and raises exactly when there are rows without a container name to look at |
| TableDifference.AddRows | tobiko/rhosp/containers.py:127-143 | one tagged row for each row of a set |
| TableDifference.TagRows | tobiko/rhosp/containers.py:109-143 | common, left-only and right-only rows, each distinct row once |
| TableDifference.TableDataDifference | tobiko/rhosp/containers.py:103-159 | different schemas are refused; the result has one tagged row for each distinct row of a wanted state that is not ignored; for tables that keep their promise, exactly when it raises |
| TableDifference.DifferenceRows | tobiko/rhosp/containers.py:80-159 | row by row, what a difference has: rows of both tables when asked for, rows of one table unless something else is asked for, each with its state, and none with an ignored text in its container's name |
| TableDifference.EmptyIffAgree | tobiko/rhosp/containers.py:148-159 | empty exactly when every row that is not ignored occurs in both tables |
| TableDifference.DifferenceSize | tobiko/rhosp/containers.py:115-143 | as many rows as distinct rows that one table only has and that are not ignored |
| TableDifference.DifferenceIsUnique | tobiko/rhosp/containers.py:103-159 | determined, up to order, by the two sets of rows |
| TableDifference.DifferencePatches | tobiko/rhosp/containers.py:103-159 | applying the difference to the first table's rows gives the second one's |
| Loader.ObjectLoader.Set | tobiko/common/_loader.py:64-75 | what is remembered of an object; one that allows no weak reference is refused |
| Loader.ObjectLoader.Get | tobiko/common/_loader.py:80-101 | the remembered object, unless it expired or is no longer registered |
| Loader.ObjectLoader.LoadModule | tobiko/common/_loader.py:129-132 | imports the module and remembers it |
| Loader.ObjectLoader.LoadFrom | tobiko/common/_loader.py:112-124 | an attribute of the parent, or else a module if the parent is one |
| Loader.ObjectLoader.Load | tobiko/common/_loader.py:103-127 | ends; gives what the name resolves to without a cache, or if the name and its ancestors are coherent; keeps all loaders faithful |
| Loader.LoaderManager.GetLoader | tobiko/common/_loader.py:165-183 | one loader for each name, which stays |
| Loader.LoadObject | tobiko/common/_loader.py:22-25 | the same by name, with what the name is to give spelled out |
| Loader.ResolveObeys | tobiko/common/_loader.py:46-124 | what a name gives, and nothing else: for p.n, where p gives an object, its attribute n, or else the module of the whole name if it is a module, or else AttributeError; without a dot, the module; TypeError for an object that refuses weak references |
| Loader.Run | tobiko/common/_loader.py:64-139 | after any history of loads, expiries and changes of the registered modules, a load equals resolving the name from its root |
| Loader.LoadTwice | tobiko/common/_loader.py:90-106 | of two loads in a row, both resolve the name exactly if it is coherent; otherwise the second one gives the other module |
| Loader.FirstIncoherent | tobiko/common/_loader.py:103-127 | wherever the cache is not to be trusted there is such a name |
| Loader.AllTrustedIffAllCoherent | tobiko/common/_loader.py:103-127 | the cache is to be trusted for all names exactly if all are coherent |
| Lifecycle.SharedFixture.SetUp | tobiko/common/_fixture.py:579-587 | the flags and the bodies executed, also when the body raises |
| Lifecycle.SharedFixture.CleanUp | tobiko/common/_fixture.py:589-601 | the flags and the bodies executed; it raises exactly if it executes a body that raises |
| Lifecycle.OnlyAlternatingCallsAct | tobiko/common/_fixture.py:579-601 | without failures, a call executes its body exactly if it does not follow a call of the same kind and is not prevented |
| Lifecycle.BodiesAlternate | tobiko/common/_fixture.py:579-601 | with clean-up enabled, set-ups and clean-ups take turns |
| Lifecycle.SetupExecutedMeans | tobiko/common/_fixture.py:579-601 | with failures too, a set-up is skipped exactly if one succeeded since the last clean-up that did not raise |
| Lifecycle.CleanupExecutedMeans | tobiko/common/_fixture.py:579-601 | with failures too, a clean-up does not execute its body exactly if an earlier call cleaned up since the last successful set-up |
| Lifecycle.BodiesExecuted | tobiko/common/_fixture.py:579-601 | after every history, with failures, which bodies the next call executes |
| Lifecycle.FailedSetupIsCleanedIff | tobiko/common/_fixture.py:579-601 | a set-up that raises is cleaned up exactly if that is not prevented and no earlier call cleaned up since the last successful set-up |
| Lifecycle.Operation.IsAfter | tobiko/common/_operation.py:211-218 | whether the operation is done, remembered from the first question on |
| Lifecycle.Operation.SetupFixture | tobiko/common/_operation.py:220-231 | runs the operation unless it is done, and marks it as done even if it raises |
| Lifecycle.Operation.SetUp | tobiko/common/_operation.py:220-231 | the same through the fixture's set-up; it raises exactly if the operation runs and raises |
| Lifecycle.Operation.GetOperation | tobiko/common/_operation.py:168-175 | sets the operation up if it is not done and operations are to be run; raises exactly if it runs and raises |
| Lifecycle.OperationRunsOnce | tobiko/common/_operation.py:168-231 | over every history an operation runs once, at its first set-up, and never if it is listed as done, whether it raises or not |

## Left out

- Clocks: time is a real number; each call to a service takes at least `Clock.tick` > 0, a sleep lasts exactly as long as asked, and the random back-off sleep is arbitrary.
- Retry loops without any limit are modelled one resumption at a time; the loops of the fixtures are modelled with the limits that they have by default.
- HeatStack.HeatStackFixture.constructor: requires a positive wait timeout, and a retry count other than zero or a positive retry timeout, because without any limit the loops need not end.
- HeatStack.HeatStackFixture.WaitUntilStackDeleted: the pace of its rounds is not stated, only that of the looks within each wait.
- HeatStack: the caches of outputs and resources, the template and its parameters, and the names of stacks; preparing parameters, quotas and external resources is one step that may raise.
- GlanceImage.UploadGlanceImageFixture.WaitForImageStatus: the original has no time limit, so the model assumes that an image is found in a changing status only a finite number of times; the sleep between look-ups is left out.
- GlanceImage: image data, download and parameters; a look-up always finds at most one image of the name.
- QuotaLimits: limits are written by the modelled loop only, a write that does not raise takes effect, and required amounts are given as a map; the projects and users that quotas belong to are servers here.
- Shelves: storage errors and the retries around them, the fallback to another file extension, and `remove_test_from_all_shared_resources`, which calls the modelled sweep for each shelf.
- ShelfLocking: file locks exclude exactly equal names; a lock that cannot be acquired in time, and what follows from running without it, is left out.
- ShelfLocking.SweepsAreSerialIffUnderTheShelfLock: the runs sweep one test only; with several tests the condition concerns each of them.
- ShelfInit: file-system errors; a worker records tests only after its own call returned.
- ResourceFixtures.AlwaysServedIffNeverLeftBehind: for calls that do not overlap, and without clean-ups by a worker that is not set up and remembers a resource; a shared fixture whose first call is a clean-up executes it without a set-up, and remembers nothing then.
- ResourceFixtures: creating and deleting do not fail, and quotas are `QuotaLimits`; a resource that is found by name is any one of that name.
- RequiredFixtures: `get_required_fixtures` is a given finite map, so the discovery of members and the caching of requirements on objects and classes are left out.
- ExcInfos: exceptions are identified up to Python equality by a name; log output of the handler is left out.
- Details: the content objects, their types and encodings; a content whose bytes cannot be read is one value.
- DeepMerge: finding, loading and parsing the files that are merged; a copy shares nothing with the original here.
- SsProcesses.ParsePrinted: for names without parentheses and quotes.
- SsProcesses: the rest of the `ss` output; what is found in names with several pairs of parentheses.
- Tables: values are strings; the order of a dictionary's keys is arbitrary, where Python has the order of insertion; inserting, replacing, concatenating, querying and CSV input are left out.
- TableDifference.DifferencePatches: for tables without a column `same_state`, which the code overwrites, and without ignored rows.
- Loader: importing may import any other modules; what modules import and what attributes objects have does not change, and `load_module` is left out.
- Lifecycle: the base class executes `_setUp`, cleans up when it raises, executes cleanups in reverse order and forgets them; cleanups that a subclass registers itself, and the messages collected, are left out.
- FixtureManager: a dictionary from names to fixtures, which would only add easy members.
- Lifecycle.OperationRunsOnce: the list of operations that are done is read once and does not change; the decorators that read it are left out.
- Clients, shells, sessions, log files, configuration, skip decorators, topology, TripleO, Podified, Octavia, Manila, Ironic and Designate: calls into other systems, or the same pattern of retrying again.
