# OpenSlides applications: the workflow of a motion, in Dafny

This project models the `Application` record of OpenSlides
(`openslides/application/models.py`): a motion in an assembly, with a
submitter, a set of supporters, an optional number, one of nine workflow
statuses, the version a manager permitted, the list of its versions and an
append-only log. It proves what each operation does to that record, which
errors it raises, and which actions the workflow offers to whom.

- `wrappers.dfy` — `Option`, for the nullable columns.
- `workflow.dfy` (module `Workflow`) — the nine status codes, the loop that
  validates a requested code, and `get_allowed_actions` as a pure function of
  the application's state and the user's role, split like the original into
  the part everyone gets and the part that needs the manage permission. The
  workflow graph `Successors` (published → permitted, not permitted,
  withdrawn; permitted → accepted, rejected, adjourned, not concerned,
  committed, withdrawn) is the reference the offered moves are proved
  against.
- `versions.dfy` (module `Versions`) — `AVersion` as a value, the running
  number `aid`, and the ordering of version ids.
- `application.dfy` (module `Applications`) — the `Application` class. Its
  fields are the record's columns; each operation is a method whose
  postcondition states the whole new state, the error it returns where the
  original raises (a `NameError`, or an `AttributeError` on a missing
  version), and the log lines it appends. `Valid()` is the
  invariant every operation keeps: version ids increase along the list, the
  permitted version is one of them, and the submitter is never a supporter.

What the original reads from elsewhere comes in as parameters: the
"can_manage_application" permission is `isManager`, the configured
minimum of supporters is `minSupporters`, whether an agenda item refers to
the application is `hasItem`, the numbers other applications hold are
`taken`, and the id the database gives a new version is `newId`.

Two consequences of the original's code that the contracts spell out:

- Every internal `self.save()` (from `writelog`, `set_status`, `reset`,
  `set_number`, …) is `Persist`. It does nothing while the application has a
  version. An application with no version yet has no title to read, so the
  save treats the caller as no manager and drops the supporters of a published
  application. `Support` on such an application therefore adds the supporter
  and then removes all supporters again; its postcondition says so.
- The number is checked by Python truthiness in `delete` and in the
  withdraw and create-item offers of `get_allowed_actions`, but against
  `None` in `set_number`, `permit`, `notpermit` and the delete and
  set-number offers. The column admits 0, and `Numbered` makes the difference
  explicit. An application numbered 0 is not offered for deletion, yet
  `Delete` without force succeeds on it.

## Model

| member | source | states |
|---|---|---|
| `Workflow.Code` | openslides/application/models.py:24-49 | every status is stored as a three-letter code, as the column's max_length demands |
| `Workflow.CodeInjective` | openslides/application/models.py:24-33 | distinct statuses have distinct codes, so a code names at most one status |
| `Workflow.FindStatus` | openslides/application/models.py:244-250 | the loop over the status table finds the status whose code was requested, and reports none exactly when no status has that code |
| `Workflow.UserActions` | openslides/application/models.py:273-305 | without the manage check: withdrawal only of a numbered published or of a permitted application by its submitter or a manager; support only while published and not by the submitter or a supporter; unsupport only by a supporter while published; edit by submitter or manager; delete only of an unnumbered published application by submitter or manager |
| `Workflow.ManagerActions` | openslides/application/models.py:307-331 | the manager's actions: every status change follows the workflow graph; permit and refuse exactly when published; the five decisions exactly when permitted; permitting or rejecting a version exactly when permitted with unpermitted changes; generating a poll exactly when permitted; numbering only an unnumbered published application; creating an agenda item only for a numbered one without an item; none of them is an open action |
| `Workflow.AllowedActions` | openslides/application/models.py:267-331 | every offered status change is an edge of the workflow graph; a user without the manage permission gets only withdraw, support, unsupport, edit and delete, and withdrawal is the only status change offered to them |
| `Workflow.ManagerTransitions` | openslides/application/models.py:311-326 | for a manager: permitted and not-permitted are offered exactly on a published application, the decisions exactly on a permitted one, permitting and rejecting a version exactly on a permitted one with unpermitted changes, generating a poll exactly on a permitted one |
| `Workflow.ManagerOffersEveryEdge` | openslides/application/models.py:274-322 | conversely, a manager is offered every edge of the workflow graph, withdrawal of a published application once it is numbered |
| `Workflow.OfferedMovesLeaveStatus` | openslides/application/models.py:267-331 | an offered status change never keeps the current status and never leads back to published |
| `Workflow.DecidedIsFinal` | openslides/application/models.py:267-331 | on a decided application (neither published nor permitted) only edit and create-item can be offered |
| `Versions.Aid` | openslides/application/models.py:411-419 | the running number of a version is the number of the application's versions whose id is at most its id, so at most the number of versions |
| `Versions.AidIsPosition` | openslides/application/models.py:411-419 | with ids increasing along the list, the running number of the k-th version (the count of versions whose id is at most its id) is k + 1 |
| `Versions.LastHasLargestId` | openslides/application/models.py:54-63 | the last version of the list has the largest id, so it is the one ordering by id and reversing returns first |
| `Applications.MaxNumber` | openslides/application/models.py:205-206 | the maximum of the numbers, present exactly when there is a number, is one of them and bounds all |
| `Applications.NextNumber` | openslides/application/models.py:203-208 | the number handed out by default is 1 when no application has a number and otherwise one more than the largest; it is at least 1 and differs from every number taken |
| `Applications.Application.constructor` | openslides/application/models.py:44-52 | a new application is published, unnumbered, without supporters, permitted version, versions or log |
| `Applications.Application.LastVersion` | openslides/application/models.py:54-63 | the last version is absent exactly when there is no version, and otherwise is a version of the application with the largest id |
| `Applications.Application.HasUnpermittedChanges` | openslides/application/models.py:113-126 | there are unpermitted changes exactly when the last version is not rejected and is newer than the permitted one (or none is permitted) |
| `Applications.Application.AllowedFor` | openslides/application/models.py:267-331 | on this application: supporting is offered exactly while published to a user who is neither the submitter nor a supporter, unsupporting exactly while published to a supporter, so never either to the submitter; permitting and rejecting a version exactly to a manager on a permitted application with unpermitted changes; every offered status change is an edge of the workflow graph |
| `Applications.Application.Notes` | openslides/application/models.py:99-111 | at most two hints, each at most once and the supporters' hint first: searching for supporters exactly when published below the minimum; not yet permitted exactly when published with no permitted version; unpermitted changes exactly when a version is permitted and a newer, unrejected one exists |
| `Applications.Application.Delete` | openslides/application/models.py:333-341 | deletion is refused exactly when the application has a (non-zero) number and force is not given |
| `Applications.Application.Persist` | openslides/application/models.py:136-163 | a save with no edited fields and no user changes nothing while a version exists; without one, a published application loses its supporters and the log records it |
| `Applications.Application.WriteLog` | openslides/application/models.py:343-350 | the log gains the line, followed by what the save inside it logs; nothing else but that save's effect changes |
| `Applications.Application.Save` | openslides/application/models.py:136-163 | nothing changes when the draft equals the last version; otherwise a new version with a fresh id is appended exactly when the title is non-empty and logged with its running number, and a published application's supporters are dropped unless a manager saved, so it no longer has enough supporters for any positive minimum; status, number and permitted version stay |
| `Applications.Application.StoreVersion` | openslides/application/models.py:147-154 | the draft becomes the newest version, not rejected, and the log names its running number |
| `Applications.Application.Reset` | openslides/application/models.py:165-172 | the status is published again and no version is permitted; number and versions stay, and the reset is logged with the given user, if any |
| `Applications.Application.Support` | openslides/application/models.py:174-185 | refused for the submitter and once a version is permitted; otherwise the user is added to the supporters and no other supporter changes (so supporting twice leaves the same set), and the log records it; with a version, an application that had enough supporters still has |
| `Applications.Application.Unsupport` | openslides/application/models.py:187-195 | refused once a version is permitted; otherwise the user is no longer a supporter and all others stay, and the log records it |
| `Applications.Application.SetNumber` | openslides/application/models.py:197-212 | refused when a number is set; otherwise the application gets the requested number or the next free one, returns it, and logs it |
| `Applications.Application.SetStatus` | openslides/application/models.py:240-265 | refused for a code that is no status, for the current status, and without force for a status not among the allowed actions; otherwise the status becomes the requested one and the change is logged from the old to the new status |
| `Applications.Application.NumberIfMissing` | openslides/application/models.py:220-221 | an unnumbered application receives the next free number, a numbered one keeps its number |
| `Applications.Application.Permit` | openslides/application/models.py:214-225 | refused unless permitting is an allowed action; otherwise the status becomes permitted, the application is numbered if it was not, and its last version becomes the permitted one and is returned; with no version it fails after changing status and number |
| `Applications.Application.PermitLastVersion` | openslides/application/models.py:219-225 | on a permitted application: number it if needed and make the last version the permitted one, logging it |
| `Applications.Application.NotPermit` | openslides/application/models.py:227-238 | refused unless refusing is an allowed action; otherwise the status becomes not permitted, the application is numbered if it was not, and the permitted version stays; with no version it fails after changing status and number |
| `Applications.Application.NotPermitLastVersion` | openslides/application/models.py:232-238 | on a refused application: number it if needed and log the refusal of the last version |
| `Applications.Application.AcceptVersion` | openslides/application/models.py:65-73 | fails when nothing is permitted; otherwise the version becomes the permitted one exactly when its id is larger than the permitted one's, and the result says whether it did; nothing else changes |
| `Applications.Application.RejectVersion` | openslides/application/models.py:75-80 | fails when nothing is permitted; otherwise exactly that version's rejected flag is set when its id is larger than the permitted one's, and the result says whether it was; nothing else changes |

## Left out

- Persistence: writing and deleting rows, query sets and the `Max` aggregate
  are reduced to the fields of one object. `Delete` only decides whether
  deletion is allowed.
- The `unique=True` constraint on the number is enforced by the database and
  is not modelled: `SetNumber` with a requested number may repeat a number
  already taken.
- The number column is a positive small integer (at most 32767) in the
  database; the model's numbers are unbounded, so `NextNumber` may exceed it.
- Log lines keep their event and the user they name; the time stamp from the
  clock, the message wording and the user name formatting are not modelled.
- Translation, `get_status_display`, `__unicode__`, `get_absolute_url`,
  `creation_time` and the version's `time` are presentation only.
- `gen_poll` depends on the poll application's `Poll` record, which is not
  part of this model; `ManagerActions` still offers the action `GenPoll`
  exactly on a permitted application, as the source does.
- `__getattr__`: title, text and reason are those of the last version. The
  values an editor sets on the instance reach `Save` as a `Draft` of all three
  fields; an instance with only some of them set is not modelled, and the
  internal saves (`Persist`) assume the instance carries none of its own.
- `get_allowed_actions` called without a user raises an `AttributeError` in
  the source. `set_status` without a user still raises its `NameError`s for an
  unknown or unchanged code; otherwise it raises an `AttributeError` in
  `get_allowed_actions`, even when forced. The model always passes a user
  there, so `SetStatus`, `Permit` and `NotPermit` take a user although
  `permit` and `notpermit` default it to none.
- `AcceptVersion` and `RejectVersion` take the position of one of the
  application's own versions; passing a version of another application is not
  modelled.
- `Save` requires `newId` to exceed every id of the application's versions,
  as the database's auto-increment ids do.
- Permission checks, the configuration store and agenda items are foreign
  calls, replaced by the parameters `isManager`, `minSupporters` and
  `hasItem`.
- The `AttributeError`s the original raises on `None` are typed error
  results: `NothingPermitted` for `accept_version` and `reject_version` with
  no permitted version (`self.permitted.id`), `NoVersion` for `permit` and
  `notpermit` with no version (`aversion.aid`, `self.last_version.aid`);
  as in the original, the latter two report it after the status and number
  have changed and been saved.
- Concurrent requests on the same application are not modelled.
