/**
 * The workflow of an application (a motion): its nine status codes and the
 * actions a user is offered in each status (`Application.STATUS` and
 * `Application.get_allowed_actions` in openslides/application/models.py).
 */
module Workflow {
  import opened Wrappers

  /** The nine values the `status` column may hold. */
  datatype Status =
    | Pub  // published
    | Per  // permitted
    | Acc  // accepted
    | Rej  // rejected
    | Wit  // withdrawn
    | Adj  // adjourned
    | Noc  // not concerned
    | Com  // committed a bill
    | Nop  // rejected (not permitted)

  /** The statuses in the order the `STATUS` table lists them. */
  const Statuses: seq<Status> := [Pub, Per, Acc, Rej, Wit, Adj, Noc, Com, Nop]

  /** The three-letter code stored in the `status` column (max_length=3). */
  function Code(s: Status): (c: string)
    ensures |c| == 3
  {
    match s
    case Pub => "pub"
    case Per => "per"
    case Acc => "acc"
    case Rej => "rej"
    case Wit => "wit"
    case Adj => "adj"
    case Noc => "noc"
    case Com => "com"
    case Nop => "nop"
  }

  /** Distinct statuses have distinct codes, so a code names at most one status. */
  lemma CodeInjective(s: Status, t: Status)
    requires Code(s) == Code(t)
    ensures s == t
  {
  }

  /** Where a status stands in the `STATUS` table. */
  function Position(s: Status): (j: nat)
    ensures j < |Statuses| && Statuses[j] == s
  {
    match s
    case Pub => 0
    case Per => 1
    case Acc => 2
    case Rej => 3
    case Wit => 4
    case Adj => 5
    case Noc => 6
    case Com => 7
    case Nop => 8
  }

  /**
   * The validation loop of `set_status`: walk the `STATUS` table and stop at
   * the entry whose code is the requested one.
   */
  method FindStatus(code: string) returns (found: Option<Status>)
    ensures found.Some? ==> Code(found.value) == code
    ensures found.None? ==> forall s: Status :: Code(s) != code
  {
    var i := 0;
    while i < |Statuses|
      invariant 0 <= i <= |Statuses|
      invariant forall j :: 0 <= j < i ==> Code(Statuses[j]) != code
    {
      if Code(Statuses[i]) == code {
        return Some(Statuses[i]);
      }
      i := i + 1;
    }
    forall s: Status
      ensures Code(s) != code
    {
      var j := Position(s);
      assert Code(Statuses[j]) != code;
    }
    return None;
  }

  /**
   * What `get_allowed_actions` returns: the status codes a user may move the
   * application to, and the additional actions (edit, delete, setnumber,
   * support, unsupport, createitem, genpoll, permitversion, rejectversion).
   */
  datatype Action =
    | Move(to: Status)
    | Support
    | Unsupport
    | Edit
    | Delete
    | SetNumber
    | GenPoll
    | PermitVersion
    | RejectVersion
    | CreateItem

  /**
   * Python truthiness of the `number` column: a missing number and the
   * number 0 are both false.
   */
  predicate Numbered(number: Option<nat>)
  {
    number.Some? && number.value != 0
  }

  /** The workflow graph: where each status may lead. */
  function Successors(s: Status): set<Status>
  {
    match s
    case Pub => {Per, Nop, Wit}
    case Per => {Acc, Rej, Adj, Noc, Com, Wit}
    case _ => {}
  }

  /** The decisions a manager may take on a permitted application. */
  const Decisions: set<Status> := {Acc, Rej, Adj, Noc, Com}

  /** The actions that need no manage permission. */
  const OpenActions: set<Action> := {Move(Wit), Support, Unsupport, Edit, Delete}

  /**
   * The actions `get_allowed_actions` offers before it checks the manage
   * permission: withdrawing, supporting, unsupporting, editing, deleting.
   */
  function UserActions(status: Status, number: Option<nat>, isSubmitter: bool, isManager: bool,
                       isSupporter: bool): (r: set<Action>)
    ensures r <= OpenActions
    // withdrawal: by the submitter or a manager, of a numbered published or of a permitted application
    ensures Move(Wit) in r <==> (isSubmitter || isManager) && ((status == Pub && Numbered(number)) || status == Per)
    // supporting and unsupporting are open only while published
    ensures Support in r <==> status == Pub && !isSubmitter && !isSupporter
    ensures Unsupport in r <==> status == Pub && isSupporter
    ensures Edit in r <==> isSubmitter || isManager
    // an application that has a number is never offered for deletion
    ensures Delete in r <==> number.None? && status == Pub && (isSubmitter || isManager)
  {
    var wit := if (status == Pub && Numbered(number) && isSubmitter)
                  || (status == Pub && Numbered(number) && isManager)
                  || (status == Per && isSubmitter)
                  || (status == Per && isManager)
               then {Move(Wit)} else {};
    var support := if status == Pub && !isSubmitter && !isSupporter then {Support} else {};
    var unsupport := if status == Pub && isSupporter then {Unsupport} else {};
    var edit := if isSubmitter || isManager then {Edit} else {};
    var delete := if number.None? && status == Pub && (isSubmitter || isManager) then {Delete} else {};
    wit + support + unsupport + edit + delete
  }

  /**
   * The actions `get_allowed_actions` adds for a user with the manage
   * permission: the decisions of the workflow and the bookkeeping around them.
   */
  function ManagerActions(status: Status, number: Option<nat>, unpermittedChanges: bool,
                          hasItem: bool): (r: set<Action>)
    ensures r !! OpenActions
    // every status change follows the workflow graph
    ensures forall t :: Move(t) in r ==> t in Successors(status)
    // permit or refuse exactly the published applications ...
    ensures Move(Per) in r <==> status == Pub
    ensures Move(Nop) in r <==> status == Pub
    // ... and take the decisions exactly on the permitted ones
    ensures forall t :: t in Decisions ==> (Move(t) in r <==> status == Per)
    // changes to versions are judged only on a permitted application that has unpermitted changes
    ensures PermitVersion in r <==> status == Per && unpermittedChanges
    ensures RejectVersion in r <==> status == Per && unpermittedChanges
    // a poll is generated only while a permitted application is debated
    ensures GenPoll in r <==> status == Per
    ensures SetNumber in r <==> status == Pub && number.None?
    ensures CreateItem in r <==> Numbered(number) && !hasItem
  {
    var published :=
      if status == Pub then {Move(Nop), Move(Per)} + (if number.None? then {SetNumber} else {})
      else {};
    var permitted :=
      if status == Per then
        {Move(Acc), Move(Rej), Move(Adj), Move(Noc), Move(Com), GenPoll}
        + (if unpermittedChanges then {PermitVersion, RejectVersion} else {})
      else {};
    var item := if Numbered(number) && !hasItem then {CreateItem} else {};
    published + permitted + item
  }

  /**
   * The allowed actions of a user on an application in the given state
   * (`get_allowed_actions`). `isSubmitter` is `user == submitter`,
   * `isSupporter` membership in the supporters, `isManager` the
   * "can_manage_application" permission, `unpermittedChanges` the query of
   * that name and `hasItem` whether an agenda item refers to the application.
   */
  function AllowedActions(status: Status, number: Option<nat>, isSubmitter: bool, isManager: bool,
                          isSupporter: bool, unpermittedChanges: bool, hasItem: bool): (r: set<Action>)
    // every offered status change follows the workflow graph
    ensures forall t :: Move(t) in r ==> t in Successors(status)
    // a user without the manage permission is offered no decision at all
    ensures !isManager ==> r <= OpenActions
    ensures !isManager ==> forall t :: t != Wit ==> Move(t) !in r
  {
    UserActions(status, number, isSubmitter, isManager, isSupporter)
    + if isManager then ManagerActions(status, number, unpermittedChanges, hasItem) else {}
  }

  /**
   * What a manager is offered: permitting and refusing exactly on published
   * applications, the decisions and a poll exactly on permitted ones, and
   * judging versions only on a permitted application with unpermitted changes.
   */
  lemma ManagerTransitions(status: Status, number: Option<nat>, isSubmitter: bool,
                           isSupporter: bool, unpermittedChanges: bool, hasItem: bool)
    ensures var r := AllowedActions(status, number, isSubmitter, true, isSupporter, unpermittedChanges, hasItem);
      && (Move(Per) in r <==> status == Pub)
      && (Move(Nop) in r <==> status == Pub)
      && (forall t :: t in Decisions ==> (Move(t) in r <==> status == Per))
      && (PermitVersion in r <==> status == Per && unpermittedChanges)
      && (RejectVersion in r <==> status == Per && unpermittedChanges)
      && (GenPoll in r <==> status == Per)
  {
    var u := UserActions(status, number, isSubmitter, true, isSupporter);
    var m := ManagerActions(status, number, unpermittedChanges, hasItem);
    assert AllowedActions(status, number, isSubmitter, true, isSupporter, unpermittedChanges, hasItem) == u + m;
    // none of these is an open action, so only the manager's part can offer them
    assert Move(Per) !in u && Move(Nop) !in u && PermitVersion !in u && RejectVersion !in u && GenPoll !in u;
    forall t | t in Decisions
      ensures Move(t) !in u
    {
    }
  }

  /**
   * Conversely, a manager is offered every edge of the workflow graph,
   * except withdrawing a published application that has no number yet.
   */
  lemma ManagerOffersEveryEdge(status: Status, number: Option<nat>, isSubmitter: bool,
                               isSupporter: bool, unpermittedChanges: bool, hasItem: bool, t: Status)
    requires t in Successors(status)
    requires status == Pub && t == Wit ==> Numbered(number)
    ensures Move(t) in AllowedActions(status, number, isSubmitter, true, isSupporter, unpermittedChanges, hasItem)
  {
    assert status == Per ==> t == Wit || t in Decisions;
  }

  /**
   * An offered status change always leaves the current status and never
   * returns to "published": that happens only through a reset or a forced
   * change.
   */
  lemma OfferedMovesLeaveStatus(status: Status, number: Option<nat>, isSubmitter: bool, isManager: bool,
                                isSupporter: bool, unpermittedChanges: bool, hasItem: bool, t: Status)
    requires Move(t) in AllowedActions(status, number, isSubmitter, isManager, isSupporter, unpermittedChanges, hasItem)
    ensures t != status && t != Pub
  {
  }

  /**
   * Once decided (any status but published and permitted), an application
   * offers no further change of status and no supporting; only editing and
   * creating an agenda item remain.
   */
  lemma DecidedIsFinal(status: Status, number: Option<nat>, isSubmitter: bool, isManager: bool,
                       isSupporter: bool, unpermittedChanges: bool, hasItem: bool)
    requires status != Pub && status != Per
    ensures AllowedActions(status, number, isSubmitter, isManager, isSupporter, unpermittedChanges, hasItem)
            <= {Edit, CreateItem}
  {
  }
}
