# EC2 bulk lifecycle operation — a Dafny model

`ec2_operation_on_all.py` runs one lifecycle operation (`start`, `stop`,
`reboot`, `terminate`) on a set of EC2 instances through the AWS CLI. It
then polls `describe-instances` until every reported instance is in the
state that operation leads to, or until its poll budget (`POLL_COUNT = 10`)
runs out. On success it appends one report record per instance to a list
and prints that list.

This project models that core in Dafny 4:

- `types.dfy` (`Ec2Types`): the decoded shape of a `describe-instances` answer. Every JSON key the script reads is an `Option`, so an absent key can be modelled. The file also holds the exceptions the script raises (`KeyError`, `ValueError`), the reservation-then-instance flattening order, and ASCII `str.lower()`.
- `tags.dfy` (`TagHelper`): `get_instance_name`.
- `states.dfy` (`StateCheck`): `describe_instance_states`. The nested loops are an imperative method, proved equal to a fold `StatesFrom` over the flattened instances that either builds the map or stops at the first `KeyError`.
- `describe.dfy` (`Describe`): `describe_instances`. The caller's `out` list is a class `RecordList` whose `records` field the loops extend in place.
- `monitor.dfy` (`Monitoring`): `monitor`. The loop is a method proved equal to the recursive specification `MonitorFrom`. Lemmas about `MonitorFrom` give the poll bound, the exact time-out condition and stopping at the first settling answer.
- `operations.dfy` (`Operations`): `operate_instances`, which issues the command and delegates to `monitor`.
- `cli.dfy` (`Cli`): the part of `main` between argument parsing and printing. This covers the credential check, `STATE_MAP`, the `--all` id listing, the empty-id check, and what ends up printed.

The provider's answers are inputs:

- `polls[i]` is the answer to the `i`-th `describe-instances` call made by `monitor`.
- `details` is the answer to the call made inside `describe_instances`.
- `listing` is the answer to the unfiltered call that `main` makes for `--all`.

The script's convergence test compares only the states the answer reports (`states and all(...)` over `states.values()`). It does not check that every requested id appears in the answer. A design in which a missing id counts as "not yet converged" would differ here. The model follows the code: `Monitoring.MissingIdDoesNotBlock` shows the difference.

With `operation` outside `STATE_MAP`, the model raises `KeyError(operation)` at `STATE_MAP[params["operation"]]`. The argument parser's `choices` already rule this out, and `Cli.StateMapCoversChoices` shows the table covers exactly those choices.

When `monitor` times out, `main` still prints `out`, which is then empty. The model's `Cli.Execute` therefore returns `Ok([])` on time-out.

## Model

| member | source | states |
|---|---|---|
| Ec2Types.Lower | ec2_operation_on_all.py:80 | `state.lower()` keeps the length and lower-cases each ASCII letter, position by position |
| Ec2Types.LowerIdempotent | ec2_operation_on_all.py:80 | lower-casing twice is lower-casing once |
| Ec2Types.Reservations | ec2_operation_on_all.py:66 | definition: `data.get("Reservations", [])` |
| Ec2Types.InstancesOf | ec2_operation_on_all.py:67 | definition: `reservation.get("Instances", [])` |
| Ec2Types.Flat | ec2_operation_on_all.py:66-67 | definition: the instances in the order the nested loops visit them; its properties are FlatStep, FlatAppend and FlatSplit |
| Ec2Types.AllInstances | ec2_operation_on_all.py:118-119 | definition: every instance of an answer, reservation by reservation (the same visit at 66-67 and 171-172) |
| Ec2Types.FlatStep | ec2_operation_on_all.py:66-67 | visiting one more reservation appends exactly its `Instances` (or nothing when the key is absent) |
| Ec2Types.FlatAppend | ec2_operation_on_all.py:66-67 | the nested-loop visit of two reservation lists is the visit of one followed by the other |
| Ec2Types.FlatSplit | ec2_operation_on_all.py:66-67 | the whole visit is: the reservations before `i`, then `rs[i]`'s instances, then the rest |
| TagHelper.FirstNameTag | ec2_operation_on_all.py:48-51 | definition of the scan: the `Value` (or "N/A") of the first tag keyed "Name", "N/A" when there is none; its properties are FirstMatchWins, NoNameTag and FirstNameTagOrigin |
| TagHelper.InstanceName | ec2_operation_on_all.py:45-47 | an absent or empty tag list gives "N/A" |
| TagHelper.FirstMatchWins | ec2_operation_on_all.py:48-50 | the first tag whose `Key` is "Name" decides the name (its `Value`, or "N/A" without one), whatever follows |
| TagHelper.NoNameTag | ec2_operation_on_all.py:48-51 | with no tag keyed "Name" the scan falls through to "N/A" |
| TagHelper.FirstNameTagOrigin | ec2_operation_on_all.py:48-51 | the scan returns "N/A" or the `Value` of some tag keyed "Name" |
| TagHelper.NameComesFromTag | ec2_operation_on_all.py:45-51 | every name other than "N/A" is the `Value` of a tag keyed "Name" |
| TagHelper.NameTagWithoutValue | ec2_operation_on_all.py:49-50 | a first "Name" tag without `Value` gives "N/A", even when a later "Name" tag has one |
| TagHelper.NameAfterOtherTag | ec2_operation_on_all.py:48-50 | tags `Env=prod, Name=web-1` give "web-1" |
| StateCheck.StatesFrom | ec2_operation_on_all.py:64-68 | definition: the dictionary after the assignments in visit order, or the first `KeyError`; its properties are StatesKeys, LastOccurrenceWins, FirstErrorRaised and ErrorPersists |
| StateCheck.StatesOf | ec2_operation_on_all.py:64-68 | definition: StatesFrom over every instance of one answer |
| StateCheck.Entry | ec2_operation_on_all.py:68 | one instance's assignment succeeds exactly when `State`, `State.Name` and `InstanceId` are all present, and then yields (id, state name); otherwise `KeyError("State")`, then `KeyError("Name")`, then `KeyError("InstanceId")`, in Python's evaluation order (right-hand side first) |
| StateCheck.ErrorPersists | ec2_operation_on_all.py:66-68 | after a `KeyError`, later instances change nothing |
| StateCheck.StatesKeys | ec2_operation_on_all.py:64-68 | flattening succeeds exactly when every instance has all three keys; then the map's keys are exactly the ids that occur |
| StateCheck.LastOccurrenceWins | ec2_operation_on_all.py:68 | for an id that occurs more than once, the map holds the state of its last occurrence |
| StateCheck.FirstErrorRaised | ec2_operation_on_all.py:66-68 | a failed flattening raises the `KeyError` of the first incomplete instance |
| StateCheck.StatesSnoc | ec2_operation_on_all.py:68 | one more instance either raises its own `KeyError` or adds or overwrites its own entry |
| StateCheck.ErrorEndsVisit | ec2_operation_on_all.py:66-68 | a `KeyError` at instance `j` of reservation `i` is the outcome for the whole answer |
| StateCheck.DescribeInstanceStates | ec2_operation_on_all.py:64-71 | the nested loops return exactly the fold `StatesOf` over the answer: the map, or the first `KeyError` |
| Describe.RecordOf | ec2_operation_on_all.py:120-126 | definition of one appended record; its properties are RecordFields |
| Describe.Records | ec2_operation_on_all.py:118-126 | one record per instance, as many records as instances (position by position in RecordsPointwise) |
| Describe.Report | ec2_operation_on_all.py:118-126 | definition: the records of every instance of one answer |
| Describe.RecordFields | ec2_operation_on_all.py:120-126 | each record field is the instance's own value, or "N/A" exactly when that key is absent; the name is `get_instance_name(Tags)` |
| Describe.RecordsPointwise | ec2_operation_on_all.py:118-126 | one record per instance, in visit order, each built from its own instance |
| Describe.RecordsSnoc | ec2_operation_on_all.py:120 | one more instance appends exactly its record |
| Describe.RecordsAppend | ec2_operation_on_all.py:118-126 | the records of two instance lists are the records of one followed by those of the other |
| Describe.RecordsStep | ec2_operation_on_all.py:119-120 | the records of the first `j+1` instances extend those of the first `j` by instance `j`'s record |
| Describe.RecordsReservationStep | ec2_operation_on_all.py:118-119 | one more reservation extends the records by the records of its instances |
| Describe.RecordList.constructor | ec2_operation_on_all.py:150 | `out` starts empty |
| Describe.RecordList.Append | ec2_operation_on_all.py:120 | `out.append` adds exactly one record at the end |
| Describe.AppendRecords | ec2_operation_on_all.py:119-126 | the inner loop appends the records of one reservation's instances, in order, after what `out` held |
| Describe.DescribeInstances | ec2_operation_on_all.py:108-126 | `out` becomes its old contents followed by the report of the answer, one record per instance |
| Monitoring.Converges | ec2_operation_on_all.py:79-82 | definition of `states and all(state.lower() == desired_state.lower() ...)`; its properties are EmptyNeverConverges, ConvergesIgnoresCase, MismatchBlocks and MissingIdDoesNotBlock |
| Monitoring.Settles | ec2_operation_on_all.py:77-85 | definition: an answer ends the polling when flattening it raises or its states converge |
| Monitoring.MonitorFrom | ec2_operation_on_all.py:76-91 | definition of the polling from read `i` on: the outcome and the number of answers read; its properties are the lemmas below, and Monitor is proved equal to it |
| Monitoring.MonitorBounded | ec2_operation_on_all.py:76 | at most `budget` answers are read, all of them on a time-out, and at least one more whenever the polling ends early |
| Monitoring.TimedOutExactlyWhenNoneSettles | ec2_operation_on_all.py:76-91 | the polling times out if and only if no answer within the budget converges or raises |
| Monitoring.UnsettledBeforeLast | ec2_operation_on_all.py:76-88 | every answer read before the last one neither converged nor raised |
| Monitoring.LastReadDecides | ec2_operation_on_all.py:77-85 | when the polling does not time out, the last answer read converged (`True`) or raised the returned `KeyError` |
| Monitoring.StopsAtFirstSettled | ec2_operation_on_all.py:76-85 | the polling stops at the first answer that converges or raises, and reads nothing after it |
| Monitoring.EmptyNeverConverges | ec2_operation_on_all.py:79 | an empty state map never converges (`states and ...`) |
| Monitoring.ConvergesIgnoresCase | ec2_operation_on_all.py:79-82 | the comparison is case-insensitive in the desired state |
| Monitoring.MismatchBlocks | ec2_operation_on_all.py:79-82 | one reported state that differs from the desired state, case aside, blocks convergence |
| Monitoring.MissingIdDoesNotBlock | ec2_operation_on_all.py:79-82 | for any requested id set and any non-empty answer that reports a strict subset of it, all in the desired state case aside: some requested id is missing, and the answer still converges |
| Monitoring.MissingIdExample | ec2_operation_on_all.py:79-82 | requested `i-a` and `i-b`, an answer reporting only `i-a` running converges for "running" |
| Monitoring.PairAnswerStates | ec2_operation_on_all.py:64-68 | the state map of an answer with two distinct instances |
| Monitoring.PairNotSettled | ec2_operation_on_all.py:79-82 | a two-instance answer with distinct ids whose first state differs from the desired one, case aside, does not settle (with equal ids the second entry overwrites the first) |
| Monitoring.PairNotSettledSecond | ec2_operation_on_all.py:79-82 | a two-instance answer whose second state differs from the desired one, case aside, does not settle |
| Monitoring.PairConverges | ec2_operation_on_all.py:79-82 | a two-instance answer with both in the desired state converges |
| Monitoring.StopScenarioConverges | ec2_operation_on_all.py:75-85 | `stop` on `i-1`, `i-2` (both stopping, then one stopped, then both stopped) converges on the third read with five attempts |
| Monitoring.StopScenarioTimesOut | ec2_operation_on_all.py:75-91 | two answers with distinct ids in which one instance still lags (its state differs from the desired one, case aside) time out after both reads when the budget is two |
| Monitoring.Monitor | ec2_operation_on_all.py:75-91 | the loop returns the outcome and poll count of `MonitorFrom`; `out` gains the report of `details` exactly on convergence and is otherwise unchanged |
| Operations.OperateInstances | ec2_operation_on_all.py:95-104 | issues `<operation>-instances` once for exactly the given ids, then behaves as `monitor` |
| Cli.Authenticate | ec2_operation_on_all.py:32-34 | succeeds exactly when `key_id`, `access_key` and `region` are all non-empty; otherwise raises `ValueError("Missing parameter: <key>")` for the first empty key, in that order |
| Cli.IdsFrom | ec2_operation_on_all.py:169-173 | the `--all` id list succeeds exactly when every listed instance has an `InstanceId` (else `KeyError("InstanceId")`), and then lists them all, in order |
| Cli.StateMap | ec2_operation_on_all.py:157-162 | the `STATE_MAP` table; its contents are StateMapCoversChoices |
| Cli.TargetIds | ec2_operation_on_all.py:166-175 | definition: with `--all` the listed ids (IdsFrom), otherwise the `--instance_id` arguments |
| Cli.Prelude | ec2_operation_on_all.py:155-178 | the checks in `main`'s order: a credential error is raised first, then `KeyError(operation)` for an operation outside `STATE_MAP`, then a listing `KeyError`; a success carries the mapped state and a non-empty id list |
| Cli.StateMapCoversChoices | ec2_operation_on_all.py:137-164 | `STATE_MAP` has exactly the parser's operation choices as keys, with start and reboot mapped to running, stop to stopped, terminate to terminated |
| Cli.EmptyIdsRejected | ec2_operation_on_all.py:177-178 | with valid credentials and an accepted operation, the run is rejected with "No instance IDs provided" if and only if the id list is empty |
| Cli.AllScopeEmpty | ec2_operation_on_all.py:166-173 | with `--all`, the id list is empty exactly when the listing has no instances |
| Cli.Execute | ec2_operation_on_all.py:150-183 | an early error issues no command and polls nothing; otherwise the command is issued once, and what is printed is the report of `details` on convergence, `[]` on time-out; a `KeyError` while polling is raised |

## Left out

- The AWS CLI calls (`sh.aws`) and `json.loads`. Their decoded answers are the inputs `polls`, `details` and `listing`. The model does not capture a failing CLI call, malformed JSON, or JSON values of unexpected types (for example a `Tags` entry that is not an object).
- Monitor: requires at least `PollCount` answers in `polls`. This stands for the provider answering every call; the ids passed to each call are not modelled, because the answers are given.
- `time.sleep(INTERVAL)`: the pause between polls has no observable effect on the outcome. Note that the script also sleeps after the last unsuccessful poll.
- Logging (`setup_logging`, `logging.info`/`warning`): output only.
- The `os.environ` writes in `authentication`: environment side effects of the credential check.
- `argparse` and the final `print(json.dumps(out, indent=4))`: the model starts from the parsed parameters, and ends with the list that is printed rather than its JSON text.
- Ec2Types.Lower: handles ASCII letters only. Python's `str.lower()` also maps non-ASCII letters; instance states are ASCII words.
- What the lifecycle command does to the instances: `Operations.Command` records the call that is made, and the answers in `polls` stand for its effect.
