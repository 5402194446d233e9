/**
 * The `Application` record of openslides/application/models.py: a motion with
 * a submitter, supporters, an optional number, a workflow status, the version
 * a manager permitted, its list of versions and an audit log. The database
 * behind it is reduced to the fields of one object; what the original reads
 * from other records (permissions, configuration, agenda items, the numbers of
 * other applications) comes in as parameters.
 */
module Applications {
  import opened Wrappers
  import opened Workflow
  import opened Versions

  /** Users are compared by identity only. */
  type User = nat

  /**
   * The errors an operation reports: the `NameError`s the original raises
   * before changing anything, and two `AttributeError` crashes on a missing
   * version (`NoVersion`, which `Permit` and `NotPermit` report after the
   * status and the number have changed) or a missing permitted version
   * (`NothingPermitted`).
   */
  datatype Error =
    | InvalidStatus(code: string)                 // the code is none of the nine statuses
    | StatusAlreadySet(status: Status)            // the application already has that status
    | TransitionRefused(from: Status, to: Status) // the change is not among the allowed actions
    | SubmitterCannotSupport                      // the submitter tried to support
    | AlreadyPermitted                            // supporting or unsupporting a permitted application
    | NumberAlreadySet                            // the application already has a number
    | NumberedNotDeletable                        // deleting a numbered application without force
    | NoVersion                                   // the operation needs a last version and there is none
    | NothingPermitted                            // a version is compared with a permitted one that is missing

  datatype Outcome = Done | Failed(error: Error)

  datatype Result<T> = Ok(value: T) | Err(error: Error)

  /** What a log line records; the time stamp is not modelled. */
  datatype Event =
    | VersionCreated(aid: nat)                 // a new version was stored, with its running number
    | SupportersRemoved                        // all supporters were dropped
    | StatusReset                              // the status went back to published
    | SupporterAdded(supporter: User)
    | SupporterRemoved(supporter: User)
    | NumberSet(number: nat)
    | VersionPermitted(aid: nat)
    | VersionNotPermitted(aid: nat)
    | StatusModified(from: Status, to: Status)

  /** One line of the log and the user it names, if any. */
  datatype Entry = Entry(event: Event, author: Option<User>)

  /** The hints `notes` shows next to an application. */
  datatype Note = SearchingForSupporters | NotYetPermitted | NotYetPermittedChanges

  /** The largest of the numbers, none when there is none (the database's Max aggregate). */
  function MaxNumber(numbers: seq<nat>): (m: Option<nat>)
    ensures m.None? <==> numbers == []
    ensures m.Some? ==> m.value in numbers && forall n :: n in numbers ==> n <= m.value
  {
    if numbers == [] then None
    else
      assert numbers == [numbers[0]] + numbers[1..];
      match MaxNumber(numbers[1..])
      case None => Some(numbers[0])
      case Some(rest) => Some(if numbers[0] > rest then numbers[0] else rest)
  }

  /**
   * The number `set_number` hands out when none is given: one more than the
   * largest number already taken, or 1 when no application has one. It
   * differs from every taken number.
   */
  function NextNumber(taken: seq<nat>): (n: nat)
    ensures n >= 1
    ensures forall m :: m in taken ==> m < n
    ensures taken == [] ==> n == 1
    ensures taken != [] ==> n - 1 in taken
  {
    match MaxNumber(taken)
    case None => 1
    case Some(m) => m + 1
  }

  class Application {
    const submitter: User
    var status: Status
    var number: Option<nat>
    var supporters: set<User>
    /** The id of the version a manager permitted. */
    var permitted: Option<nat>
    /** The application's versions in the order of their ids. */
    var versions: seq<Version>
    var log: seq<Entry>

    /**
     * What every operation keeps: version ids increase along the list, the
     * permitted version is one of them, and the submitter never supports
     * their own application.
     */
    ghost predicate Valid()
      reads this
    {
      && IdsIncreasing(versions)
      && (permitted.Some? ==> HasId(versions, permitted.value))
      && submitter !in supporters
    }

    /** A new application as it is created, before its first save. */
    constructor (submitter: User)
      ensures Valid()
      ensures this.submitter == submitter
      ensures status == Pub && number == None && supporters == {} && permitted == None
      ensures versions == [] && log == []
    {
      this.submitter := submitter;
      status := Pub;
      number := None;
      supporters := {};
      permitted := None;
      versions := [];
      log := [];
    }

    /** `last_version`: the version with the largest id, if any. */
    function LastVersion(): (v: Option<Version>)
      reads this
      requires Valid()
      ensures v.None? <==> versions == []
      ensures v.Some? ==> v.value in versions && forall w :: w in versions ==> w.id <= v.value.id
    {
      if versions == [] then None
      else
        LastHasLargestId(versions);
        Some(versions[|versions| - 1])
    }

    /**
     * `unpermitted_changes`: the last version is not the permitted one and
     * is not rejected, that is, a newer version than the permitted one waits
     * for a decision.
     */
    function HasUnpermittedChanges(): (b: bool)
      reads this
      requires Valid()
      ensures b <==> versions != [] && !versions[|versions| - 1].rejected
                     && (permitted.None? || permitted.value < versions[|versions| - 1].id)
    {
      match LastVersion()
      case None => false
      case Some(v) =>
        if permitted.Some? then HasIdAtMostLast(versions, permitted.value); permitted.value != v.id && !v.rejected
        else !v.rejected
    }

    /** `enough_supporters`: at least the configured minimum of supporters. */
    function EnoughSupporters(minSupporters: nat): bool
      reads this
    {
      |supporters| >= minSupporters
    }

    /** `notes`: the hints shown for the application in its present state. */
    function Notes(minSupporters: nat): (notes: seq<Note>)
      reads this
      requires Valid()
      ensures |notes| <= 2
      // each hint at most once, the supporters' hint first
      ensures forall i, j :: 0 <= i < j < |notes| ==> notes[i] != notes[j]
      ensures SearchingForSupporters in notes ==> notes[0] == SearchingForSupporters
      ensures SearchingForSupporters in notes <==> status == Pub && |supporters| < minSupporters
      ensures NotYetPermitted in notes <==> status == Pub && permitted.None?
      ensures NotYetPermittedChanges in notes <==>
                permitted.Some? && !versions[|versions| - 1].rejected
                && permitted.value < versions[|versions| - 1].id
    {
      (if status == Pub && !EnoughSupporters(minSupporters) then [SearchingForSupporters] else [])
      + if status == Pub && permitted.None? then [NotYetPermitted]
        else if HasUnpermittedChanges() && permitted.Some? then [NotYetPermittedChanges]
        else []
    }

    /**
     * The actions `get_allowed_actions` offers `user` on this application.
     * The submitter is offered neither supporting nor unsupporting, since the
     * submitter is never among the supporters.
     */
    function AllowedFor(user: User, isManager: bool, hasItem: bool): (a: set<Action>)
      reads this
      requires Valid()
      ensures Action.Support in a <==> status == Pub && user != submitter && user !in supporters
      ensures Action.Unsupport in a <==> status == Pub && user in supporters
      ensures user == submitter ==> Action.Support !in a && Action.Unsupport !in a
      ensures PermitVersion in a <==> isManager && status == Per && HasUnpermittedChanges()
      ensures Action.RejectVersion in a <==> PermitVersion in a
      ensures forall t :: Move(t) in a ==> t in Successors(status)
    {
      AllowedActions(status, number, user == submitter, isManager, user in supporters,
                     HasUnpermittedChanges(), hasItem)
    }

    /**
     * `delete`: refused for a numbered application unless forced; removing
     * the row itself belongs to the database.
     */
    method Delete(force: bool) returns (r: Outcome)
      ensures r.Failed? <==> Numbered(number) && !force
      ensures r.Failed? ==> r.error == NumberedNotDeletable
    {
      if Numbered(number) && !force {
        return Failed(NumberedNotDeletable);
      }
      r := Done;
    }

    /**
     * Whether a save without edited fields and without a user drops the
     * supporters: with no version yet, reading the title fails, the saver
     * counts as no manager, and a published application loses its supporters.
     */
    ghost predicate ClearsOnSave()
      reads this
    {
      versions == [] && status == Pub && supporters != {}
    }

    /**
     * `save()` as the other operations call it: no edited fields, no user.
     * With a last version nothing changed, so nothing happens.
     */
    method Persist()
      requires Valid()
      modifies this
      ensures Valid()
      ensures status == old(status) && number == old(number) && permitted == old(permitted)
      ensures versions == old(versions)
      ensures supporters == if old(ClearsOnSave()) then {} else old(supporters)
      ensures log == old(log) + if old(ClearsOnSave()) then [Entry(SupportersRemoved, None)] else []
    {
      if versions == [] && status == Pub && supporters != {} {
        supporters := {};
        // the save inside this log write finds no supporter left
        log := log + [Entry(SupportersRemoved, None)];
      }
    }

    /** `writelog`: append a line, then save. */
    method WriteLog(event: Event, author: Option<User>)
      requires Valid()
      modifies this
      ensures Valid()
      ensures status == old(status) && number == old(number) && permitted == old(permitted)
      ensures versions == old(versions)
      ensures supporters == if old(ClearsOnSave()) then {} else old(supporters)
      ensures log == old(log) + [Entry(event, author)]
                     + if old(ClearsOnSave()) then [Entry(SupportersRemoved, None)] else []
    {
      log := log + [Entry(event, author)];
      Persist();
    }

    /** The running number `aid` of the last version: its position in the list. */
    function LastAid(): (n: nat)
      reads this
      requires Valid()
      requires versions != []
      ensures n == |versions|
    {
      AidIsPosition(versions, |versions| - 1);
      Aid(versions, versions[|versions| - 1].id)
    }

    /** The last version holds exactly the draft's title, text and reason. */
    ghost predicate UpToDate(draft: Draft)
      reads this
    {
      versions != [] && SameContent(versions[|versions| - 1], draft)
    }

    /**
     * `save(user)` after an editor set title, text and reason: a new version
     * is stored only when they differ from the last version and the title is
     * not empty, and a change by anyone but a manager drops the supporters of
     * a published application. `newId` is the id the database gives the new
     * version, larger than every id it gave before.
     */
    method Save(draft: Draft, user: Option<User>, isManager: bool, newId: nat)
      requires Valid()
      requires forall v :: v in versions ==> v.id < newId
      modifies this
      ensures Valid()
      ensures status == old(status) && number == old(number) && permitted == old(permitted)
      ensures old(UpToDate(draft)) ==> unchanged(this)
      ensures versions ==
                if !old(UpToDate(draft)) && draft.title != ""
                then old(versions) + [Version(newId, draft.title, draft.text, draft.reason, false)]
                else old(versions)
      ensures supporters ==
                if !old(UpToDate(draft)) && old(status) == Pub && !(user.Some? && isManager) then {}
                else old(supporters)
      ensures log == old(log)
                     + (if |versions| > |old(versions)| then [Entry(VersionCreated(|versions|), user)] else [])
                     + (if !old(UpToDate(draft)) && old(status) == Pub && old(supporters) != {}
                           && !(user.Some? && isManager)
                        then [Entry(SupportersRemoved, user)] else [])
      // a published application changed by anyone but a manager starts again without supporters
      ensures !old(UpToDate(draft)) && old(status) == Pub && !(user.Some? && isManager) ==>
                forall m: nat :: m >= 1 ==> !EnoughSupporters(m)
    {
      var last := LastVersion();
      if last.Some? && SameContent(last.value, draft) {
        return;
      }
      if draft.title != "" {
        StoreVersion(draft, user, newId);
      }
      var manager := user.Some? && isManager;
      if status == Pub && supporters != {} && !manager {
        supporters := {};
        WriteLog(SupportersRemoved, user);
      }
    }

    /** The part of `save` that stores the draft as a new version and logs it. */
    method StoreVersion(draft: Draft, user: Option<User>, newId: nat)
      requires Valid()
      requires forall v :: v in versions ==> v.id < newId
      modifies this
      ensures Valid()
      ensures status == old(status) && number == old(number) && permitted == old(permitted)
      ensures supporters == old(supporters)
      ensures versions == old(versions) + [Version(newId, draft.title, draft.text, draft.reason, false)]
      ensures log == old(log) + [Entry(VersionCreated(|versions|), user)]
    {
      ghost var before := versions;
      versions := versions + [Version(newId, draft.title, draft.text, draft.reason, false)];
      assert forall i :: 0 <= i < |before| ==> before[i] in before;
      if permitted.Some? {
        ghost var k :| 0 <= k < |before| && before[k].id == permitted.value;
        assert versions[k].id == permitted.value;
      }
      // the save inside this log write finds the new version up to date
      WriteLog(VersionCreated(LastAid()), user);
    }

    /** `reset`: back to published, with no permitted version. */
    method Reset(user: Option<User>)
      requires Valid()
      modifies this
      ensures Valid()
      ensures status == Pub && permitted == None
      ensures number == old(number) && versions == old(versions)
      ensures supporters == if versions == [] then {} else old(supporters)
      ensures log == old(log)
                     + (if versions == [] && old(supporters) != {} then [Entry(SupportersRemoved, None)] else [])
                     + [Entry(StatusReset, user)]
    {
      status := Pub;
      permitted := None;
      Persist();
      WriteLog(StatusReset, user);
    }

    /**
     * `support`: refused for the submitter and once a version is permitted;
     * otherwise `user` joins the supporters (no change if already there).
     */
    method Support(user: User) returns (r: Outcome)
      requires Valid()
      modifies this
      ensures Valid()
      ensures r == if user == submitter then Failed(SubmitterCannotSupport)
                   else if old(permitted).Some? then Failed(AlreadyPermitted)
                   else Done
      ensures r.Failed? ==> unchanged(this)
      ensures r.Done? ==> status == old(status) && number == old(number) && permitted == old(permitted)
      ensures r.Done? ==> versions == old(versions)
      ensures r.Done? ==> supporters == if versions == [] && status == Pub then {} else old(supporters) + {user}
      ensures r.Done? ==> log == old(log) + [Entry(SupporterAdded(user), None)]
                                 + if versions == [] && status == Pub then [Entry(SupportersRemoved, None)] else []
      // with a version, supporting never costs the application its minimum
      ensures r.Done? && versions != [] ==>
                forall m: nat :: old(EnoughSupporters(m)) ==> EnoughSupporters(m)
    {
      if user == submitter {
        return Failed(SubmitterCannotSupport);
      }
      if permitted.Some? {
        return Failed(AlreadyPermitted);
      }
      if user !in supporters {
        supporters := supporters + {user};
      }
      WriteLog(SupporterAdded(user), None);
      r := Done;
    }

    /**
     * `unsupport`: refused once a version is permitted; otherwise `user` is
     * no longer a supporter and the others stay.
     */
    method Unsupport(user: User) returns (r: Outcome)
      requires Valid()
      modifies this
      ensures Valid()
      ensures r == if old(permitted).Some? then Failed(AlreadyPermitted) else Done
      ensures r.Failed? ==> unchanged(this)
      ensures r.Done? ==> status == old(status) && number == old(number) && permitted == old(permitted)
      ensures r.Done? ==> versions == old(versions)
      ensures r.Done? ==> supporters == if versions == [] && status == Pub then {} else old(supporters) - {user}
      ensures r.Done? ==> log == old(log) + [Entry(SupporterRemoved(user), None)]
                                 + if versions == [] && status == Pub && old(supporters) - {user} != {}
                                   then [Entry(SupportersRemoved, None)] else []
    {
      if permitted.Some? {
        return Failed(AlreadyPermitted);
      }
      if user in supporters {
        supporters := supporters - {user};
      }
      WriteLog(SupporterRemoved(user), None);
      r := Done;
    }

    /**
     * `set_number`: refused when the application has a number; otherwise it
     * takes the requested number or, without one, the next free number after
     * those `taken` to applications, and returns it.
     */
    method SetNumber(requested: Option<nat>, author: Option<User>, taken: seq<nat>) returns (r: Result<nat>)
      requires Valid()
      modifies this
      ensures Valid()
      ensures old(number).Some? ==> r == Err(NumberAlreadySet) && unchanged(this)
      ensures old(number).None? ==> r.Ok? && number == Some(r.value)
      ensures old(number).None? ==> r.value == if requested.Some? then requested.value else NextNumber(taken)
      ensures old(number).None? ==>
                status == old(status) && permitted == old(permitted) && versions == old(versions)
      ensures old(number).None? ==> supporters == if old(ClearsOnSave()) then {} else old(supporters)
      ensures old(number).None? ==>
                log == old(log) + (if old(ClearsOnSave()) then [Entry(SupportersRemoved, None)] else [])
                       + [Entry(NumberSet(r.value), author)]
    {
      if number.Some? {
        return Err(NumberAlreadySet);
      }
      var n := if requested.Some? then requested.value else NextNumber(taken);
      number := Some(n);
      Persist();
      WriteLog(NumberSet(n), author);
      r := Ok(n);
    }

    /**
     * `set_status`: refused for a code that is no status, for the current
     * status, and, unless forced, for a status not among the allowed actions;
     * otherwise the status changes and the change is logged.
     */
    method SetStatus(user: User, code: string, isManager: bool, hasItem: bool, force: bool) returns (r: Outcome)
      requires Valid()
      modifies this
      ensures Valid()
      ensures (forall s: Status :: Code(s) != code) ==> r == Failed(InvalidStatus(code))
      ensures forall s: Status :: Code(s) == code ==>
                r == if s == old(status) then Failed(StatusAlreadySet(s))
                     else if !force && Move(s) !in old(AllowedFor(user, isManager, hasItem))
                     then Failed(TransitionRefused(old(status), s))
                     else Done
      ensures r.Failed? ==> unchanged(this)
      ensures r.Done? ==> Code(status) == code
      ensures r.Done? ==> number == old(number) && permitted == old(permitted) && versions == old(versions)
      ensures r.Done? ==> supporters == if versions == [] && status == Pub then {} else old(supporters)
      ensures r.Done? ==>
                log == old(log)
                       + (if versions == [] && status == Pub && old(supporters) != {}
                          then [Entry(SupportersRemoved, None)] else [])
                       + [Entry(StatusModified(old(status), status), Some(user))]
    {
      var found := FindStatus(code);
      if found.None? {
        return Failed(InvalidStatus(code));
      }
      var s := found.value;
      forall t: Status | Code(t) == code
        ensures t == s
      {
        CodeInjective(t, s);
      }
      if status == s {
        return Failed(StatusAlreadySet(s));
      }
      var actions := AllowedFor(user, isManager, hasItem);
      if Move(s) !in actions && !force {
        return Failed(TransitionRefused(status, s));
      }
      var was := status;
      status := s;
      Persist();
      WriteLog(StatusModified(was, s), Some(user));
      r := Done;
    }

    /**
     * The step `permit` and `notpermit` share: `set_number()` without a user,
     * when the application has no number yet.
     */
    method NumberIfMissing(taken: seq<nat>)
      requires Valid()
      requires status != Pub
      modifies this
      ensures Valid()
      ensures number == if old(number).None? then Some(NextNumber(taken)) else old(number)
      ensures status == old(status) && permitted == old(permitted) && versions == old(versions)
      ensures supporters == old(supporters)
      ensures log == old(log) + if old(number).None? then [Entry(NumberSet(NextNumber(taken)), None)] else []
    {
      if number.None? {
        var given := SetNumber(None, None, taken);
      }
    }

    /**
     * `permit`: move to permitted as `user` may, number the application if
     * it has no number, and permit its last version, which is returned.
     * Without a version the status and number change and then the operation
     * fails.
     */
    method Permit(user: User, isManager: bool, hasItem: bool, taken: seq<nat>) returns (r: Result<nat>)
      requires Valid()
      modifies this
      ensures Valid()
      ensures Move(Per) !in old(AllowedFor(user, isManager, hasItem)) ==>
                && r == Err(if old(status) == Per then StatusAlreadySet(Per) else TransitionRefused(old(status), Per))
                && unchanged(this)
      ensures Move(Per) in old(AllowedFor(user, isManager, hasItem)) ==>
                && old(status) == Pub && status == Per
                && (r.Ok? <==> versions != []) && (r.Err? ==> r.error == NoVersion)
                && versions == old(versions) && supporters == old(supporters)
                && number == (if old(number).None? then Some(NextNumber(taken)) else old(number))
                && permitted == (if versions == [] then None else Some(versions[|versions| - 1].id))
                && (r.Ok? ==> r.value == versions[|versions| - 1].id)
                && log == old(log) + [Entry(StatusModified(Pub, Per), Some(user))]
                          + (if old(number).None? then [Entry(NumberSet(NextNumber(taken)), None)] else [])
                          + (if versions == [] then [] else [Entry(VersionPermitted(|versions|), Some(user))])
    {
      ghost var allowed := AllowedFor(user, isManager, hasItem);
      assert Move(Per) in allowed ==> status == Pub;
      var moved := SetStatus(user, Code(Per), isManager, hasItem, false);
      if moved.Failed? {
        assert moved == Failed(if old(status) == Per then StatusAlreadySet(Per) else TransitionRefused(old(status), Per));
        return Err(moved.error);
      }
      CodeInjective(status, Per);
      assert log == old(log) + [Entry(StatusModified(Pub, Per), Some(user))];
      r := PermitLastVersion(user, taken);
    }

    /** What `permit` does once the status is permitted. */
    method PermitLastVersion(user: User, taken: seq<nat>) returns (r: Result<nat>)
      requires Valid()
      requires status == Per
      modifies this
      ensures Valid()
      ensures status == Per && versions == old(versions) && supporters == old(supporters)
      ensures (r.Ok? <==> versions != []) && (r.Err? ==> r.error == NoVersion)
      ensures number == if old(number).None? then Some(NextNumber(taken)) else old(number)
      ensures permitted == if versions == [] then None else Some(versions[|versions| - 1].id)
      ensures r.Ok? ==> r.value == versions[|versions| - 1].id
      ensures log == old(log)
                     + (if old(number).None? then [Entry(NumberSet(NextNumber(taken)), None)] else [])
                     + (if versions == [] then [] else [Entry(VersionPermitted(|versions|), Some(user))])
    {
      var aversion := LastVersion();
      NumberIfMissing(taken);
      permitted := if aversion.Some? then Some(aversion.value.id) else None;
      if aversion.Some? {
        assert versions[|versions| - 1].id == aversion.value.id;
      }
      Persist();
      if aversion.None? {
        return Err(NoVersion);
      }
      WriteLog(VersionPermitted(LastAid()), Some(user));
      r := Ok(aversion.value.id);
    }

    /**
     * `notpermit`: move to "rejected (not permitted)" as `user` may and
     * number the application if it has no number. Without a version the
     * status and number change and then the operation fails.
     */
    method NotPermit(user: User, isManager: bool, hasItem: bool, taken: seq<nat>) returns (r: Outcome)
      requires Valid()
      modifies this
      ensures Valid()
      ensures Move(Nop) !in old(AllowedFor(user, isManager, hasItem)) ==>
                && r == Failed(if old(status) == Nop then StatusAlreadySet(Nop) else TransitionRefused(old(status), Nop))
                && unchanged(this)
      ensures Move(Nop) in old(AllowedFor(user, isManager, hasItem)) ==>
                && old(status) == Pub && status == Nop
                && (r.Done? <==> versions != []) && (r.Failed? ==> r.error == NoVersion)
                && versions == old(versions) && supporters == old(supporters) && permitted == old(permitted)
                && number == (if old(number).None? then Some(NextNumber(taken)) else old(number))
                && log == old(log) + [Entry(StatusModified(Pub, Nop), Some(user))]
                          + (if old(number).None? then [Entry(NumberSet(NextNumber(taken)), None)] else [])
                          + (if versions == [] then [] else [Entry(VersionNotPermitted(|versions|), Some(user))])
    {
      ghost var allowed := AllowedFor(user, isManager, hasItem);
      assert Move(Nop) in allowed ==> status == Pub;
      var moved := SetStatus(user, Code(Nop), isManager, hasItem, false);
      if moved.Failed? {
        assert moved == Failed(if old(status) == Nop then StatusAlreadySet(Nop) else TransitionRefused(old(status), Nop));
        return Failed(moved.error);
      }
      CodeInjective(status, Nop);
      assert log == old(log) + [Entry(StatusModified(Pub, Nop), Some(user))];
      r := NotPermitLastVersion(user, taken);
    }

    /** What `notpermit` does once the status is "rejected (not permitted)". */
    method NotPermitLastVersion(user: User, taken: seq<nat>) returns (r: Outcome)
      requires Valid()
      requires status == Nop
      modifies this
      ensures Valid()
      ensures status == Nop && versions == old(versions) && supporters == old(supporters)
      ensures permitted == old(permitted)
      ensures (r.Done? <==> versions != []) && (r.Failed? ==> r.error == NoVersion)
      ensures number == if old(number).None? then Some(NextNumber(taken)) else old(number)
      ensures log == old(log)
                     + (if old(number).None? then [Entry(NumberSet(NextNumber(taken)), None)] else [])
                     + (if versions == [] then [] else [Entry(VersionNotPermitted(|versions|), Some(user))])
    {
      NumberIfMissing(taken);
      Persist();
      if versions == [] {
        return Failed(NoVersion);
      }
      WriteLog(VersionNotPermitted(LastAid()), Some(user));
      r := Done;
    }

    /**
     * `accept_version`: permit the k-th version when it is newer than the
     * permitted one; the result says whether it was.
     */
    method AcceptVersion(k: nat) returns (r: Result<bool>)
      requires Valid()
      requires k < |versions|
      modifies this
      ensures Valid()
      ensures old(permitted).None? ==> r == Err(NothingPermitted)
      ensures old(permitted).Some? ==> r == Ok(old(versions)[k].id > old(permitted).value)
      ensures permitted == if r == Ok(true) then Some(old(versions)[k].id) else old(permitted)
      ensures status == old(status) && number == old(number) && supporters == old(supporters)
      ensures versions == old(versions) && log == old(log)
    {
      if permitted.None? {
        return Err(NothingPermitted);
      }
      if versions[k].id > permitted.value {
        permitted := Some(versions[k].id);
        Persist();
        return Ok(true);
      }
      r := Ok(false);
    }

    /**
     * `reject_version`: mark the k-th version rejected when it is newer than
     * the permitted one; the result says whether it was.
     */
    method RejectVersion(k: nat) returns (r: Result<bool>)
      requires Valid()
      requires k < |versions|
      modifies this
      ensures Valid()
      ensures old(permitted).None? ==> r == Err(NothingPermitted)
      ensures old(permitted).Some? ==> r == Ok(old(versions)[k].id > old(permitted).value)
      ensures versions == if r == Ok(true) then old(versions)[k := old(versions)[k].(rejected := true)]
                          else old(versions)
      ensures status == old(status) && number == old(number) && supporters == old(supporters)
      ensures permitted == old(permitted) && log == old(log)
    {
      if permitted.None? {
        return Err(NothingPermitted);
      }
      if versions[k].id > permitted.value {
        ghost var before := versions;
        versions := versions[k := versions[k].(rejected := true)];
        assert forall i :: 0 <= i < |versions| ==> versions[i].id == before[i].id;
        ghost var j :| 0 <= j < |before| && before[j].id == permitted.value;
        assert versions[j].id == permitted.value;
        return Ok(true);
      }
      r := Ok(false);
    }
  }
}
