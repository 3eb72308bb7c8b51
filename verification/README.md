# LibPaxos3, the replicated counter and khash in Dafny

The project models the multi-instance Paxos core of `paxostest/paxos`, the event handlers of `paxostest/evpaxos` that
drive it, the hash table `khash.h` under it, its record stores, and the replicated counter of
`paxostest/sample/counter.c`, and proves what they are for: agreement on one log, no lost client values, tables that
behave like maps, and trimming that never takes away what somebody still needs.

`dafny verify dfyconfig.toml` checks all of it.

## How it is built

* **Roles as step functions.** `acceptor_spec.dfy`, `proposer_spec.dfy` and `learner_spec.dfy` say for each operation
  what it does to the role's state and which message it sends, branch by branch, with tables read as finite maps and
  the queue as a sequence. `evproposer_spec.dfy` does the same for the proposer's handlers.
* **The protocol.** `protocol.dfy` puts proposers and acceptors on a network that is a growing set of messages: a step
  may read any message ever sent, any number of times, or never, which is loss, duplication and reordering.
  `safety.dfy` and `safety_proposer.dfy` hold the inductive invariant, `agreement.dfy` the theorems about runs,
  `validity.dfy`, `conservation.dfy` and `conservation_runs.dfy` what happens to client values, and
  `learner_proofs.dfy`, `learner_agreement.dfy`, `learner_progress.dfy` and `repeat_hazard.dfy` the learners.
  `progress.dfy` proves that no run gets stuck.
* **What the steps are good for.** `acceptor_answers.dfy`, `proposer_answers.dfy`, `evproposer_settles.dfy` and
  `resends.dfy` say of the step functions what their callers and peers rely on: that requests are answered, what an
  answer does to whoever asked, what is sent and when, and what state a handler leaves.
* **The objects.** `proposer.dfy`, `instance_tables.dfy`, `timeouts.dfy`, `evproposer.dfy`, `learner.dfy`,
  `acceptor.dfy`, `evacceptor.dfy`, `storage_mem.dfy`, `storage_bdb.dfy`, `carray.dfy`, `quorum.dfy` and `counter.dfy`
  are classes and loops over arrays and tables as in the source. Each method's contract equates the new state it reads
  as with the step function applied to the old one, so what is proved about the step functions holds for the objects.
  `handler_steps.dfy` shows that whatever a handler of a proposer or an acceptor does is a stretch of protocol
  steps, and `learner_agreement.dfy` that a learner's handler makes a stretch of learner events, so that the theorems
  about runs and learners are about what the handlers do.
* **khash.** `probing.dfy` and `roundup.dfy` are the number theory, `khash_table.dfy` the reasoning about flags, keys
  and values as sequences (including entries in transit during the in-place rehash), `khash.dfy` the table itself, and
  `flag_words.dfy` the two-bit flag macros.
* **The counter.** `counter_spec.dfy`, `counter_proofs.dfy`, `counter_lag.dfy` and `counter.dfy`.

"Chosen" means accepted by a majority of the acceptors at one ballot.

## Hypotheses

The theorems need, and state, what the code needs:

* Client values are not empty: the proposer reads a promised value of length zero as none (`proposer.c:179`).
* Proposer ids are distinct and in 0..9, and a proposer does not restart with its state lost.
* `uint32` ballots and instance numbers do not wrap, and a proposer's tables never have to hold more instances than
  the 2^31 buckets a `khash` can have (`MAX_BUCKETS`). Memory allocation succeeds.
* In a run, `proposer_set_instance_id` and `learner_set_instance_id` are called before the first step.
* Learners, and the proposers of `DroppedWasChosen`, are fed acks whose ballot is their value ballot, which is what an
  acceptor answers to an accept. A repeat answers with the stored record, whose ballot a later prepare may have
  raised; `RepeatsBreakAgreement` shows that without this hypothesis two learners can deliver different values.
* An acceptor that loses its records when it crashes (the memory store) does not come back.
* In the counter, TRIM entries of the log are those submitted by replicas, of which there are at most 16.

## Results worth knowing

Where the code does not do what one would expect, it is kept as it is and the exact condition is proved.

* Repeat replies can break agreement between learners (`RepeatHazard.RepeatsBreakAgreement`) and make a proposer drop
  a value that was not chosen (`RepeatHazard.RepeatsDropUnchosen`). In every run a repeat is evidence of a vote at its
  ballot if and only if its ballot equals its value ballot, and otherwise its sender has voted for nothing there
  (`Agreement.RepeatIsVoteInEveryRun`); with acks that meet this, neither happens (`LearnerAgreement.LearnersAgree`,
  `ConservationInRuns.DroppedWasChosen`).
* The timeout iterator does not advance past the instance it returns. A pass ends if and only if the configured
  timeout is positive or nothing is overdue (`Timeouts.PassEndsIff`).
* The counter's minimum starts from the old entry of replica 0, so the trim that a report calls for can be sent late,
  never too early (`CounterProofs.NeverTrimsTooFar`). `CounterProofs.TrimLagsExactlyThen` says for which reports,
  `CounterProofs.TrimLagsWitness` gives one, and `CounterLag.LagIsReachable` a run that ends so.
* The handler of trim reports does not call `try_accept`, so a value it gives back to the queue can be left there
  although an instance is ready for it, until the next handler that does (`Settling.ReportUnsettles`). When it leaves
  nothing undone is proved exactly (`Settling.ReportSettlesIff`).
* `kh_put` cannot report a full table: with all of 2^31 buckets holding other keys it answers that the key is there,
  with another key's bucket, and in no other case (`KHashMap.KHash.Put`).
* A late-starting learner whose first ack is for instance 0 is told of a hole although nothing is missing
  (`LearnerProofs.HolesWhenDrained`).
* `kroundup32` wraps to zero above 2^31 (`RoundUp.RoundsUpWraps`).

## Model

| member | source | states |
|---|---|---|
| Agreement.AgreementInEveryRun | paxostest/paxos/proposer.c:146-291 | Agreement: whatever is chosen for an instance at two points of a run, by any majorities at any ballots, is the same value. The network may lose, duplicate and reorder; timeouts, preemptions and trims happen at any time. |
| Agreement.OneChosenValue | paxostest/paxos/acceptor.c:70-111 | In any state that keeps the invariant, two chosen values of one instance are equal. |
| Agreement.ChosenSticks | paxostest/paxos/proposer.c:170-228 | Once a value is chosen at a ballot, every Accept at that or a higher ballot carries it (induction over ballots). |
| Agreement.AcceptsSafeInEveryRun | paxostest/paxos/proposer.c:170-228 | Every Accept ever sent stays justified for ever: some majority promised its ballot and either never votes below it, or the Accept carries the value of their highest vote below it. |
| Agreement.AcceptIsJustified | paxostest/paxos/proposer.c:470-482 | The same in one state, from the invariant. |
| Agreement.OneValuePerBallot | paxostest/paxos/proposer.c:351-388 | Over all proposers and all retransmissions, one instance and one ballot have one value; a resent Accept carries the original one. |
| Agreement.PromisesKeptInEveryRun | paxostest/paxos/acceptor.c:70-90 | Every Promise stays true, also one that answered a stale prepare with a higher stored ballot: no vote of that acceptor ever lies strictly between its vote ballot and its ballot, and the stored ballot never drops below it while the instance is not trimmed. |
| Agreement.TrimmedForGood | paxostest/paxos/acceptor.c:123-133 | After a trim covering an instance the acceptor never accepts anything more there. |
| Agreement.TablesWellFormedInEveryRun | paxostest/paxos/proposer.c:133-142 | In every run the prepare and accept tables are disjoint, keyed by their instances' iids, never ahead of `next_prepare_iid`, and every instance being accepted has a value: what all asserts of the proposer check. |
| Agreement.BallotsRise | paxostest/paxos/proposer.c:370-388 | A pending instance's ballot stays congruent to the proposer id modulo 10, and each step leaves it or raises it by exactly 10. |
| Agreement.NeverPreparedTwice | paxostest/paxos/proposer.c:133-144 | An instance that a proposer has passed and no longer holds never comes back. |
| Agreement.RunInv | paxostest/paxos/proposer.c:133-309 | The protocol invariant holds in every state of every run. |
| Agreement.RunGrows | paxostest/paxos/acceptor.c:123-133 | No step ever takes back a sent message, lowers a trim point or lowers `next_prepare_iid`. |
| Agreement.RepeatIsVoteIffGenuine | paxostest/paxos/acceptor.c:113-121 | What a repeat is worth: it always stands for a vote at its value ballot; it stands for one at its ballot if and only if the two are equal; if they differ, that acceptor has voted for no value at all at its ballot. |
| Agreement.RepeatIsVoteInEveryRun | paxostest/paxos/acceptor.c:113-121 | The same at every moment of every run. |
| Progress.NeverStuck | paxostest/paxos/proposer.c:146-291 | No run gets stuck: it can always be continued so that the first pending instance of a proposer, prepared or accepting, gets a value chosen, if there is a client value for it and some majority of the acceptors has not trimmed it, whatever ballots others have left behind. |
| Progress.CatchesUp | paxostest/paxos/proposer.c:163-168 | By the Promises that answer its late Prepares, a proposer gets its ballot past those of a whole majority. |
| Progress.TryingSucceeds | paxostest/paxos/proposer.c:146-228 | From any state in which a proposer is preparing its smallest instance, a stretch of steps gets a value chosen there. |
| Progress.AcceptingSucceeds | paxostest/paxos/proposer.c:230-291 | The same from an instance being accepted: its Accept is accepted by the majority, or refused and the instance prepared again. |
| Safety.InitInv | paxostest/paxos/proposer.c:85-98 | The invariant holds initially. |
| Safety.PrepareKeepsInv | paxostest/paxos/acceptor.c:70-90 | Answering a prepare keeps the protocol invariant. |
| Safety.AcceptKeepsInv | paxostest/paxos/acceptor.c:91-112 | Answering an accept keeps the protocol invariant. |
| Safety.OtherAnswersKeepInv | paxostest/paxos/acceptor.c:113-140 | Repeats, trims and state reports keep the protocol invariant. |
| ProposerSafety.PickedValueSafe | paxostest/paxos/proposer.c:179-190 | When a quorum of promises has been counted, the promised value with the highest value ballot, or the own value if there is none, is safe at the instance's ballot. |
| ProposerSafety.CountKeepsEvidence | paxostest/paxos/proposer.c:170-190 | Counting one more promise keeps the recorded promised value the highest vote reported so far. |
| ProposerSafety.SendAcceptKeepsInv | paxostest/paxos/proposer.c:195-228 | Sending an Accept keeps the protocol invariant. |
| ProposerSafety.ResendAcceptKeepsInv | paxostest/paxos/proposer.c:351-362 | Resending an Accept after a timeout keeps it. |
| ProposerSafety.NextKeepsInv | paxostest/paxos/proposer.c:113-309 | Every step of the system keeps it. |
| PaxosTypes.QuorumsIntersect | paxostest/paxos/paxos.c:56-60 | Two majorities of the same acceptors share one. |
| PaxosTypes.MajorityIsLeast | paxostest/paxos/paxos.c:56-60 | A quorum is more than half of the acceptors, and no more than that is asked. |
| Validity.OnlyProposedValuesChosen | paxostest/paxos/proposer.c:113-119 | Validity: a chosen value is one that a client gave to some proposer earlier in the run. |
| ConservationInRuns.ValuesAreConserved | paxostest/paxos/proposer.c:113-119 | Conservation: in every run, at every moment and for every value, what a proposer holds (queued or attached to an instance) plus what it has dropped is exactly what clients gave it. |
| ConservationInRuns.StepConserves | paxostest/paxos/proposer.c:249-259 | The same for one step of the system. |
| ConservationInRuns.DroppedWasChosen | paxostest/paxos/proposer.c:249-259 | If only genuine acks are counted, a value is dropped only when it has been chosen for the instance the ack is about. |
| Conservation.AcceptedConserves | paxostest/paxos/proposer.c:230-265 | Counting an ack gives up a value only if the ack completes a majority for an Accept carrying equal bytes; a value that lost to a promised one goes back to the queue. |
| Conservation.TrimConserves | paxostest/paxos/proposer.c:405-422 | Trimming both tables while scanning them returns every attached value to the queue, exactly once. |
| Conservation.PreemptedConserves | paxostest/paxos/proposer.c:267-291 | Preemption loses no client value. |
| Conservation.AcceptConserves | paxostest/paxos/proposer.c:215-224 | Taking a value from the queue and moving the instance keeps the number of times each value is held. |
| ProposerTables.StateKeepsTables | paxostest/paxos/proposer.c:293-309 | A trim report that is not older than the last one leaves no instance at or below its trim point and `next_prepare_iid` not below it; an older one changes nothing; tables stay well formed. |
| ProposerTables.AcceptKeepsPending | paxostest/paxos/proposer.c:195-228 | Sending an Accept moves an instance and loses none: the number of instances pending stays. |
| ProposerTables.PreemptedKeepsPending | paxostest/paxos/proposer.c:267-291 | So does a preemption. |
| InstanceTables.SmallestIn | paxostest/paxos/proposer.c:202-208 | The bucket scan finds the instance with the least iid, or nothing exactly when the table is empty. |
| InstanceTables.MoveInstance | paxostest/paxos/proposer.c:390-403 | Moves one entry between two hash tables, with its quorum cleared; neither assert fails. |
| InstanceTables.TrimInstances | paxostest/paxos/proposer.c:405-422 | Deleting during the scan removes exactly the entries at or below the trim iid, each scanned once, and appends their client values to the queue in that order. |
| InstanceTables.TrimStep | paxostest/paxos/proposer.c:409-421 | One bucket of that scan keeps the scan's invariant. |
| InstanceTables.LeastGrows | paxostest/paxos/proposer.c:203-208 | One bucket of the minimum scan keeps its invariant. |
| Proposers.Proposer.constructor | paxostest/paxos/proposer.c:85-98 | A new proposer is empty. |
| Proposers.Proposer.Propose | paxostest/paxos/proposer.c:113-119 | Appends a value to the queue. |
| Proposers.Proposer.SetInstanceId | paxostest/paxos/proposer.c:127-131 | Sets the instance that counts as opened last; allowed also with instances pending, as long as those are not ahead of it. |
| Proposers.Proposer.Prepare | paxostest/paxos/proposer.c:133-144 | Over the ring buffer and the hash tables: exactly the specification's step of opening an instance. |
| Proposers.Proposer.ReceivePromise | paxostest/paxos/proposer.c:146-193 | Exactly the specification's step for a promise: dropped, counted, or preempting. |
| Proposers.Proposer.Accept | paxostest/paxos/proposer.c:195-228 | Exactly the specification's head-of-line step. |
| Proposers.Proposer.ReceiveAccepted | paxostest/paxos/proposer.c:230-265 | Exactly the specification's step for an ack. |
| Proposers.Proposer.ReceivePreempted | paxostest/paxos/proposer.c:267-291 | Exactly the specification's step for a preemption. |
| Proposers.Proposer.ReceiveAcceptorState | paxostest/paxos/proposer.c:293-309 | Exactly the specification's step for a trim report, for the bucket orders of the two tables. |
| ProposerAnswers.PromiseDoes | paxostest/paxos/proposer.c:146-193 | A promise preempts if and only if its ballot is higher, and then the instance starts over ten ballots higher with nothing counted or promised, its client value kept, and the Prepare sent is for that new ballot; one at the instance's ballot counts its sender once and records its vote if that is the highest so far; any other does nothing. |
| ProposerAnswers.PreemptedDoes | paxostest/paxos/proposer.c:267-291 | A preemption takes effect if and only if its ballot is higher than that of an instance being accepted, which then starts over in the same way; otherwise nothing changes. |
| ProposerAnswers.AcceptedDoes | paxostest/paxos/proposer.c:230-265 | An ack is reported as counted if and only if it is for an instance being accepted, at its ballot, and its sender's first, which is if and only if it changes anything; the instance is closed exactly at a majority. |
| ProposerAnswers.OpenDoes | paxostest/paxos/proposer.c:133-144 | Opening takes the next iid, which no instance has, for an empty instance at the first ballot, stamped with the time, and the Prepare is for it. |
| ProposerAnswers.ReportDoes | paxostest/paxos/proposer.c:293-309 | A trim report removes exactly the instances at or below its trim point, leaves the others as they are, and is ignored if an earlier one was higher. |
| ProposerAnswers.OldReportIsIgnored | paxostest/paxos/proposer.c:296-300 | After a report, one with a lower trim point does nothing. |
| ProposerAnswers.PromisesAreCounted | paxostest/paxos/proposer.c:170-176 | Whatever promises arrive, in any order and any number of times, as long as none is higher than the instance's ballot, exactly the senders of those at its ballot are counted. |
| ProposerAnswers.AcksClose | paxostest/paxos/proposer.c:242-259 | Whatever acks arrive, an instance is closed exactly when the senders of those at its ballot are a majority. |
| ProposerAnswers.StepAnnounces | paxostest/paxos/proposer.c:133-388 | In every step of a proposer, each Prepare or Accept sent is for an instance as that step leaves it pending, at its ballot and with its value, and every instance that is new or has a new ballot has its request sent. |
| ProposerAnswers.AskedInEveryRun | paxostest/paxos/proposer.c:133-388 | In every run, every pending instance has had the request sent that it waits for: a Prepare at its present ballot, or an Accept at its ballot with its value. |
| Timeouts.Pass | paxostest/paxos/proposer.c:323-349 | One pass of the iterator over a table, whenever it can end, returns each overdue instance without a quorum exactly once, stamping exactly those. |
| Timeouts.PassEndsIff | paxostest/paxos/proposer.c:323-349 | A pass over a table ends if and only if the timeout is positive or nothing is overdue. |
| Timeouts.PassesOnIffPositive | paxostest/paxos/proposer.c:323-336 | The cursor is not advanced on return, so once a call has found something overdue, the next gets past that bucket if and only if the timeout is positive. |
| Timeouts.PassGoesOn | paxostest/paxos/proposer.c:323-349 | Each instance a pass returns is new to the pass. |
| Timeouts.NextTimedOut | paxostest/paxos/proposer.c:323-336 | Stops at the first overdue bucket from the cursor on. |
| Resends.ResendsExactly | paxostest/evpaxos/evproposer.c:138-158 | A timeout pass sends a pending instance's request again, as it is pending, if and only if it lacks a majority and was last sent at least a timeout ago; each once and nothing else; only the time stamps of those sent change. |
| Resends.NotAgainTooSoon | paxostest/paxos/proposer.c:338-362 | What one pass sends, a later one sends again if and only if it comes at least a timeout later. |
| Proposers.Proposer.PassBoth | paxostest/paxos/proposer.c:338-362 | Both passes, whenever they can end: which instances come back, and that nothing but their time stamps changes. |
| EvProposerSpec.AcceptAllDoes | paxostest/evpaxos/evproposer.c:74-81 | The loop of `try_accept` sends Accepts for strictly ascending instances that had a quorum, none before a smaller prepared one, takes client values from the front of the queue in order for every instance without one while there are any, leaves all other instances alone, and stops in a state with nothing to accept. |
| EvProposerSpec.StopsExactlyThen | paxostest/paxos/proposer.c:210-221 | `proposer_accept` sends nothing if and only if there is no prepared instance, the smallest lacks a quorum, or there is neither a value nor a promised value for it. |
| EvProposerSpec.OpenManyDoes | paxostest/evpaxos/evproposer.c:60-72 | Preexecution opens as many instances as asked for, with consecutive iids and the first ballot, and changes no other instance. |
| EvProposerSpec.WindowFull | paxostest/evpaxos/evproposer.c:60-81 | After `try_accept` at least `preexec_window` instances are prepared. |
| Settling.TryAcceptSettles | paxostest/evpaxos/evproposer.c:60-81 | Whatever state `try_accept` starts from, it leaves nothing that could be accepted and a full window; what it sends is the Accepts of exactly the instances that move and the Prepares of exactly as many new ones as the window lacks. |
| Settling.PromiseSettles | paxostest/evpaxos/evproposer.c:83-95 | The promise handler always leaves such a state, having sent the Prepare of a preemption, if any, and then that. |
| Settling.ClientValueSettles | paxostest/evpaxos/evproposer.c:119-128 | So does the handler of client values. |
| Settling.AcceptedSettles | paxostest/evpaxos/evproposer.c:97-104 | So does the handler of acks if the ack counts; if it does not, nothing changes and nothing is sent. |
| Settling.PreemptedSettles | paxostest/evpaxos/evproposer.c:106-117 | So does the handler of preemptions if the instance is preempted; if it is not, nothing changes and nothing is sent. |
| Settling.TimeoutsKeepSettled | paxostest/evpaxos/evproposer.c:138-158 | The timeout handler leaves such a state exactly if it found one. |
| Settling.ReadyIsOffered | paxostest/evpaxos/evproposer.c:74-81 | If the smallest prepared instance has a majority of promises and there is a value for it, its Accept is the first thing `try_accept` sends. |
| Settling.ReportSettlesIff | paxostest/evpaxos/evproposer.c:130-136 | The handler of trim reports does not call `try_accept`: it leaves such a state if and only if enough instances above the trim point are prepared and the smallest of them lacks promises, or a value while no value is queued or given back. |
| Settling.ReportUnsettles | paxostest/evpaxos/evproposer.c:130-136 | A report after which a value stays queued although an instance is ready for it. |
| EvProposers.EvProposer.PreExecute | paxostest/evpaxos/evproposer.c:60-72 | Over the real tables: sends and ends as the specification says. |
| EvProposers.EvProposer.TryAccept | paxostest/evpaxos/evproposer.c:74-81 | Terminates, sends and ends as the specification says. |
| EvProposers.EvProposer.HandlePromise | paxostest/evpaxos/evproposer.c:83-95 | The handler is a promise step followed by `try_accept`. |
| EvProposers.EvProposer.HandleAccepted | paxostest/evpaxos/evproposer.c:97-104 | `try_accept` runs only if the ack was counted. |
| EvProposers.EvProposer.HandlePreempted | paxostest/evpaxos/evproposer.c:106-117 | `try_accept` runs only after a preemption. |
| EvProposers.EvProposer.HandleClientValue | paxostest/evpaxos/evproposer.c:119-128 | A proposed value, then `try_accept`. |
| EvProposers.EvProposer.HandleAcceptorState | paxostest/evpaxos/evproposer.c:130-136 | A trim report. |
| EvProposers.EvProposer.CheckTimeouts | paxostest/evpaxos/evproposer.c:138-158 | Whenever the passes can end, every overdue prepare and accept is sent again exactly once, with its own ballot and value. |
| HandlerSteps.HandlePromiseIsSteps | paxostest/evpaxos/evproposer.c:83-95 | All a promise handler does to the proposer and the network is a stretch of protocol steps. |
| HandlerSteps.HandleAcceptedIsSteps | paxostest/evpaxos/evproposer.c:97-104 | The same for the ack handler. |
| HandlerSteps.HandlePreemptedIsSteps | paxostest/evpaxos/evproposer.c:106-117 | The same for the preemption handler. |
| HandlerSteps.HandleClientValueIsSteps | paxostest/evpaxos/evproposer.c:119-128 | The same for the client value handler. |
| HandlerSteps.HandleAcceptorStateIsSteps | paxostest/evpaxos/evproposer.c:130-136 | The same for the trim report handler. |
| HandlerSteps.CheckTimeoutsIsSteps | paxostest/evpaxos/evproposer.c:138-158 | The same for the timeout handler. |
| HandlerSteps.HandlePrepareIsStep | paxostest/evpaxos/evacceptor.c:56-69 | What an acceptor does with a Prepare that was sent is one protocol step. |
| HandlerSteps.HandleAcceptIsStep | paxostest/evpaxos/evacceptor.c:74-90 | The same for an Accept that was sent. |
| HandlerSteps.HandleTrimIsStep | paxostest/evpaxos/evacceptor.c:108-114 | The same for a trim, of any instance. |
| HandlerSteps.SendStateIsStep | paxostest/evpaxos/evacceptor.c:116-124 | The same for the periodic report of the trim point. |
| HandlerSteps.RepeatIsSteps | paxostest/evpaxos/evacceptor.c:92-106 | A whole repeat range is a stretch of protocol steps. |
| HandlerSteps.RunGoesOn | paxostest/evpaxos/evproposer.c:83-158 | A run extended by what handlers do is a run, so every theorem about runs holds for it. |
| LearnerAgreement.DeliversTheChosenLog | paxostest/paxos/learner.c:98-133 | A learner fed genuine acks in any order, with losses and duplicates, delivers consecutive instances without repeats, from its starting instance, each with its chosen value. |
| LearnerAgreement.LearnersAgree | paxostest/paxos/learner.c:98-133 | Two learners never deliver different values for one instance. |
| LearnerAgreement.HandlingReaches | paxostest/evpaxos/evlearner.c:68-93 | Any sequence of calls of the ack handler with genuine acks, each draining what has become deliverable, is a stretch of the learner events the theorems are about, with the same log. |
| LearnerAgreement.HandlersAgree | paxostest/evpaxos/evlearner.c:68-93 | Agreement of what two learners hand to their applications, stated of sequences of handler calls with genuine acks: consecutive instances with their chosen values, never two values for one instance. |
| LearnerProgress.TakesAck | paxostest/paxos/learner.c:209-233 | Taking an ack replaces that acceptor's earlier one exactly if that is older, and touches no other; a closed instance keeps its acks and its final value. |
| LearnerProgress.HandlingKeepsTrack | paxostest/evpaxos/evlearner.c:68-93 | Whatever the ack handler is called with, no ack for an instance the learner has not passed is lost, it holds only acks it was told, and its log has every instance from the first one to where it is. |
| LearnerProgress.MajorityCloses | paxostest/paxos/learner.c:240-268 | A learner that was told of a majority at one ballot, and of nothing higher by these acceptors, has the instance closed or is past it, whatever else it was told and in whatever order. |
| LearnerProgress.DeliversUpTo | paxostest/evpaxos/evlearner.c:68-93 | Told of such majorities for every instance from where it starts (a late starter: from its first ack) up to n, it has delivered all of them, in order. |
| LearnerAgreement.FinalIsChosen | paxostest/paxos/learner.c:240-268 | A closed instance backed by votes holds a chosen value, although only ballots are compared. |
| LearnerProofs.ClosesExactlyAtMajority | paxostest/paxos/learner.c:209-281 | Looking at `last_update_ballot` alone closes an instance exactly when some ballot has a majority of acks; an open instance never contains one; a closed one is never touched again. |
| LearnerProofs.CountIsBackers | paxostest/paxos/learner.c:249-260 | The counting loop counts the distinct acceptors whose stored ack has that ballot. |
| LearnerProofs.ReceiveKeepsOk | paxostest/paxos/learner.c:98-120 | Taking an ack keeps the learner's invariant. |
| LearnerProofs.DeliverKeepsOk | paxostest/paxos/learner.c:122-133 | Delivering keeps it, and hands out something exactly when the current instance is closed. |
| LearnerProofs.HolesWhenDrained | paxostest/paxos/learner.c:135-144 | After draining, a hole is reported exactly when a closed instance is waiting, or when a late start took instance 0 for its first and is still at it. |
| Learners.Instance.HasQuorum | paxostest/paxos/learner.c:240-268 | Over the ack array: sets the final value as the specification says, never a second time. |
| Learners.Instance.Update | paxostest/paxos/learner.c:209-233 | Over the ack array: exactly the specification's update. |
| Learners.Learner.ReceiveAccepted | paxostest/paxos/learner.c:98-120 | Over the table of instance objects: exactly the specification's step. |
| Learners.Learner.DeliverNext | paxostest/paxos/learner.c:122-133 | Copies the final value out of the instance it deletes: exactly the specification's step. |
| Learners.Learner.HasHoles | paxostest/paxos/learner.c:135-144 | Reports the stretch from the current to the highest closed instance, exactly when it is behind. |
| Learners.Learner.DeliverClosed | paxostest/evpaxos/evlearner.c:68-80 | Terminates, delivers one by one, and leaves nothing deliverable. |
| Learners.Learner.HandleAccepted | paxostest/evpaxos/evlearner.c:86-93 | An ack, then everything that has become deliverable. |
| Learners.Learner.CheckHoles | paxostest/evpaxos/evlearner.c:54-66 | Asks for the hole, at most ten instances beyond its start. |
| RepeatHazard.RepeatsBreakAgreement | paxostest/paxos/acceptor.c:113-121 | Why genuine acks are needed: a reachable state in which two fresh learners, one of them fed a repeat whose ballot a later prepare raised, deliver different values for one instance. |
| RepeatHazard.RepeatsDropUnchosen | paxostest/paxos/proposer.c:242-259 | The same for proposers: a reachable state in which a proposer, counting a repeat whose ballot was raised, drops a client value that has not been chosen for any instance. |
| Probing.NeverMeet | paxostest/paxos/include/khash.h:222-231 | Two different steps of a probe sequence whose numbers add up to less than 2n - 1 look at different buckets. |
| Probing.BackAtStart | paxostest/paxos/include/khash.h:227-229 | The index is back at its start after exactly 2n - 1 steps. |
| Probing.VisitsEvery | paxostest/paxos/include/khash.h:222-231 | Triangular probing modulo a power of two looks at every bucket within n steps. |
| RoundUp.RoundsUpToPowerOfTwo | paxostest/paxos/include/khash.h:165-167 | `kroundup32`, bit by bit in 32 bits, yields the least power of two that is large enough, for sizes up to 2^31. |
| RoundUp.RoundsUpWraps | paxostest/paxos/include/khash.h:165-167 | For larger sizes it yields zero. |
| RoundUp.ZeroWraps | paxostest/paxos/include/khash.h:165-167 | For zero it yields zero. |
| KHashMap.RoundedNear | paxostest/paxos/include/khash.h:238-240 | From n buckets, asking for n - 1 keeps n, and asking for n + 1 doubles it; from none, or from 2^31 where doubling wraps, it yields the minimum of four. |
| KHashMap.KHash.constructor | paxostest/paxos/include/khash.h:201-203 | A new table is the empty map. |
| KHashMap.KHash.Get | paxostest/paxos/include/khash.h:220-233 | Finds the bucket of a key exactly when the map has it; 'back at start' means absent. |
| KHashMap.KHash.FindSlot | paxostest/paxos/include/khash.h:310-325 | Settles on the key's own bucket or on a free one its search reaches; if neither exists, on the bucket of another key. |
| KHashMap.KHash.Search | paxostest/paxos/include/khash.h:310-321 | The search of `kh_put`: coming all the way round, or meeting an empty bucket, proves the key absent; the site it remembers is a tombstone its probe sequence reaches; a way all round without one means that every bucket is taken. |
| KHashMap.KHash.Put | paxostest/paxos/include/khash.h:297-338 | Behaves like adding a key to a map, resizing as needed; the return code is 0 for a key that was there, 2 for a reused tombstone and 1 otherwise. The bucket is the key's own unless the key is new and all of the 2^31 buckets possible hold others, when it answers 0 with another key's bucket. |
| KHashMap.KHash.Del | paxostest/paxos/include/khash.h:339-345 | Behaves like removing a key; leaves a tombstone and moves nothing. |
| KHashMap.KHash.SetValue | paxostest/paxos/proposer.c:142-142 | Storing through `kh_value` updates the map at that bucket's key. |
| KHashMap.KHash.KickOut | paxostest/paxos/include/khash.h:253-282 | One kick-out chain terminates with every entry still reachable. |
| KHashMap.KHash.MoveAll | paxostest/paxos/include/khash.h:259-284 | The in-place rehash loop moves every entry and loses none. |
| KHashMap.KHash.Resize | paxostest/paxos/include/khash.h:234-296 | Keeps exactly the same map with no tombstones left, or does nothing when the size asked for is too small. |
| KHashMap.KHash.AlwaysAnEmptyBucket | paxostest/paxos/include/khash.h:305-309 | A table that has buckets has an empty one as long as it can be doubled, and at the largest size unless every bucket is in use. |
| KHashMap.KHash.Contents | paxostest/paxos/proposer.c:203-208 | The live buckets hold exactly the map's entries, each key once. |
| KHashTable.Absent | paxostest/paxos/include/khash.h:227-231 | A search that meets an empty bucket, or has come all the way round, proves the key absent. |
| KHashTable.Written | paxostest/paxos/include/khash.h:269-281 | Writing the entry in hand into its new bucket keeps every entry either moved, unmoved or in hand. |
| KHashTable.TransitEnds | paxostest/paxos/include/khash.h:284-294 | When no unmoved entry is left, the new flags describe a sound table for the same map. |
| KHashTable.UpperBoundIsRounded | paxostest/paxos/include/khash.h:293-293 | The size at which a table is rehashed is 0.77 times its buckets, rounded. |
| FlagWords.NewFlags | paxostest/paxos/include/khash.h:245-245 | Filling with 0xaa makes all buckets empty. |
| FlagWords.SetIsDelTrue | paxostest/paxos/include/khash.h:161-161 | On the packed words, marks one live bucket deleted and changes no other flag. |
| FlagWords.SetIsEmptyFalse | paxostest/paxos/include/khash.h:159-159 | On the packed words, makes one empty bucket live and changes no other flag. |
| FlagWords.SetIsBothFalse | paxostest/paxos/include/khash.h:160-160 | On the packed words, makes one bucket live and changes no other flag. |
| FlagWords.OneFlagChanges | paxostest/paxos/include/khash.h:155-161 | Writing a word so that one pair of bits changes, changes one bucket's flag. |
| StorageMem.MemStore.Get | paxostest/paxos/storage_mem.c:91-105 | Halts exactly when a newer instance of the slot's class was written; otherwise answers as an unbounded map. |
| StorageMem.MemStore.Put | paxostest/paxos/storage_mem.c:107-115 | The slot holds the record of the largest iid written in its class. |
| StorageBdb.BdbStore.Trim | paxostest/paxos/storage_bdb.c:378-431 | The cursor loop terminates having removed exactly the records 1..iid, with key 0 holding the trim iid and every other record unchanged. |
| StorageBdb.BdbStore.GetTrimInstance | paxostest/paxos/storage_bdb.c:323-351 | Reads the last trim iid, or zero. |
| Acceptors.Acceptor.Open | paxostest/paxos/acceptor.c:45-59 | An acceptor opened on a durable store has its trim point and its records. |
| Acceptors.Acceptor.Restart | paxostest/paxos/acceptor.c:45-59 | Restarting on durable storage is a stutter. |
| Acceptors.Acceptor.ReceivePrepare | paxostest/paxos/acceptor.c:70-90 | On either store: the specification's step, or the process exits, exactly when the instance was evicted from its slot, without answering. |
| Acceptors.Acceptor.ReceiveAccept | paxostest/paxos/acceptor.c:91-112 | The same for an accept. |
| Acceptors.Acceptor.ReceiveRepeat | paxostest/paxos/acceptor.c:113-121 | The same for a repeat; it changes nothing. |
| Acceptors.Acceptor.ReceiveTrim | paxostest/paxos/acceptor.c:123-133 | The specification's trim on either store. |
| AcceptorAnswers.PrepareIsAnswered | paxostest/paxos/acceptor.c:70-90 | A prepare above the trim point is always answered with a Promise for its instance, also when it comes too late: at the higher of the two ballots, which is the one stored from then on, with the last vote, which stays. A prepare below the stored ballot changes nothing and is told that higher ballot. |
| AcceptorAnswers.AcceptIsAnswered | paxostest/paxos/acceptor.c:91-112 | An accept above the trim point is accepted if and only if no higher ballot is stored; otherwise it is refused with that higher ballot and changes nothing. |
| AcceptorAnswers.UnansweredIffTrimmed | paxostest/paxos/acceptor.c:70-112 | A prepare or accept goes unanswered if and only if its instance is trimmed. |
| AcceptorAnswers.AnswersAgainTheSame | paxostest/paxos/acceptor.c:70-112 | A request that arrives again gets the same answer again and changes nothing more. |
| AcceptorAnswers.PromiseDecidesAccepts | paxostest/paxos/acceptor.c:70-112 | After a Promise, an Accept is accepted if and only if it reaches the Promise's ballot, and is refused with that ballot otherwise. |
| AcceptorAnswers.VoteIsReported | paxostest/paxos/acceptor.c:70-121 | Once a value is accepted, every Promise reports it with its ballot, however many prepares have come in between, and a repeat returns it. |
| AcceptorAnswers.TrimSparesTheRest | paxostest/paxos/acceptor.c:123-133 | A trim silences the instances it covers and changes no answer about the others; what it covers is still repeated from memory, but not from the durable store. |
| AcceptorAnswers.PromiseMovesProposer | paxostest/paxos/proposer.c:146-193 | Acceptor and proposer together: a proposer that asked for a promise gets the acceptor counted for its ballot, or, exactly if the acceptor had answered a higher ballot, asks again at its next ballot. |
| AcceptorAnswers.AckMovesProposer | paxostest/paxos/proposer.c:230-291 | The same for one that asked to accept: the ack is counted and closes the instance at a majority, or, exactly if the acceptor had answered a higher ballot, the answer is a preemption on which the instance is prepared again. |
| EvAcceptors.EvAcceptor.HandlePrepare | paxostest/evpaxos/evacceptor.c:56-69 | A promise goes back to the sender only. |
| EvAcceptors.EvAcceptor.HandleAccept | paxostest/evpaxos/evacceptor.c:74-90 | A vote goes to every client, a preemption to the sender only. |
| EvAcceptors.EvAcceptor.HandleRepeat | paxostest/evpaxos/evacceptor.c:92-106 | Answers the range in order, from instance 0 on if so asked, or exits at the first evicted instance having answered the ones before it. |
| EvAcceptors.EvAcceptor.HandleTrim | paxostest/evpaxos/evacceptor.c:108-114 | A trim is taken, nothing is answered. |
| EvAcceptors.EvAcceptor.SendState | paxostest/evpaxos/evacceptor.c:116-124 | Reports the trim point to every client. |
| EvAcceptors.RepeatsWhatWasAccepted | paxostest/evpaxos/evacceptor.c:92-106 | A repeat answers exactly the instances of the range that hold a value, each once and in ascending order. |
| CArrays.CArray.PushBack | paxostest/paxos/carray.c:80-89 | The ring buffer appends to the FIFO sequence it stands for, growing when full. |
| CArrays.CArray.PopFront | paxostest/paxos/carray.c:91-100 | Takes the oldest element, or nothing exactly when empty. |
| CArrays.CArray.Grow | paxostest/paxos/carray.c:116-129 | Doubling keeps the sequence. |
| CArrays.CArray.At | paxostest/paxos/carray.c:131-135 | Indexing from the head. |
| CArrays.IndexIsRemainder | paxostest/paxos/carray.c:131-135 | The wrapped index is the remainder modulo the size. |
| CArrays.Pushed | paxostest/paxos/carray.c:80-89 | Writing at the tail appends to the sequence. |
| CArrays.Popped | paxostest/paxos/carray.c:91-100 | Advancing the head drops the first element. |
| Quorums.Quorum.Add | paxostest/paxos/quorum.c:57-66 | Counts each acceptor once. |
| Quorums.Quorum.Reached | paxostest/paxos/quorum.c:68-72 | True exactly when the distinct acceptors counted are a majority. |
| Quorums.Quorum.Clear | paxostest/paxos/quorum.c:44-49 | Forgets them all. |
| CounterProofs.NeverTrimsTooFar | paxostest/sample/counter.c:75-132 | In every run with crashes and restarts, a trim sent is at most the checkpointed instance of every replica and below the instance any replica delivers next. |
| CounterProofs.CountsExactlyOnce | paxostest/sample/counter.c:61-90 | However often a replica crashed and replayed, its count is the number of counting entries in the log up to its position. |
| CounterProofs.TrimIsCautious | paxostest/sample/counter.c:92-106 | A trim sent is no more than what the sender knows of any replica, and more than the last one it sent. |
| CounterProofs.TrimIsRecorded | paxostest/sample/counter.c:92-106 | A TRIM raises what is known of its sender to what it says if that is news, and changes nothing else but the last trim, to the one sent. |
| CounterProofs.KnowsWhatWasReported | paxostest/sample/counter.c:92-106 | What a replica knows of each other is exactly the highest that the TRIMs it delivered since it started say. |
| CounterProofs.CrashLosesLittle | paxostest/sample/counter.c:116-132 | In every run, a crash makes a replica forget fewer than 100 counted entries, and every checkpoint was announced by a TRIM. |
| CounterProofs.TrimLagsExactlyThen | paxostest/sample/counter.c:92-106 | A report that is news leaves the trim it calls for unsent (or sends less) if and only if it is replica 0's, is past the last trim, and every other known entry is above both replica 0's old one and the last trim; a report that is no news does if and only if every entry was already past the last trim. What is sent is never more than what is due. |
| CounterProofs.TrimLagsWitness | paxostest/sample/counter.c:97-101 | Such a report: three replicas known to be at 0, 200 and 200, no trim yet, and replica 0 reports 300. Everybody is known to have checkpointed 200, and nothing is sent. |
| CounterLag.LagIsReachable | paxostest/sample/counter.c:116-132 | A run of two replicas reaches a state in which replica 0 knows that both have checkpointed instance 100 and no trim has been sent. |
| CounterProofs.DeliverKeepsInv | paxostest/sample/counter.c:116-132 | A delivery keeps the invariant behind both. |
| CounterProofs.RestartKeepsInv | paxostest/sample/counter.c:160-165 | A restart from the state file keeps it. |
| Counters.Replica.constructor | paxostest/sample/counter.c:160-165 | A replica starts from its state file, with nothing known about the others. |
| Counters.Replica.UpdateTrimInfo | paxostest/sample/counter.c:92-106 | Over the array: exactly the specification's trim rule. |
| Counters.Replica.OnDeliver | paxostest/sample/counter.c:116-132 | Over the array and the file: exactly the specification's delivery. |

## Left out

- Sockets, libevent, reconnecting, message packing and configuration (`peers.c`, `message.c`, `paxos_types_pack.c`, `config.c`): the network is a growing set of messages.
- Berkeley DB beyond the trim loop, and LMDB: transactions, flags and error returns of foreign libraries; an ordered map with a cursor stands for the database.
- Memory: `malloc` failures, freeing, and leaks such as the promised value dropped by a preemption; values are immutable byte sequences.
- InstanceTables.MoveInstance: the proposer's instances are values written back to their bucket, not objects shared by pointer, so aliasing between a bucket and a local pointer is not captured; the learner's instances are objects with ack arrays.
- InstanceTables.SmallestIn: an instance's quorum is a set of acceptor ids; that `quorum.c` implements such a set is proved apart, in module `Quorums`.
- Learners.Learner.GetInstanceOrCreate: the learner's table is a map of instance objects; that `khash.h` implements a map is proved apart, in module `KHashMap`.
- KHashMap.KHash.Put: flags are one per bucket; that the packed words act the same is proved apart, in module `FlagWords`. Failed allocations (return code -1) are not modelled.
- EvProposers.EvProposer.TryAccept: all instances a handler opens are stamped with one reading of the clock.
- Proposers.Proposer.SetInstanceId: not to an instance below a pending one, after which opening instances would reach one that is pending and the proposer's assert would fail.
- Learners.Learner.SetInstanceId: only for a learner that does not start late; a late start overrides the position again at the first ack.
- EvAcceptors.EvAcceptor.HandleRepeat: a range that starts at 0 on a durable store whose key 0 holds a trim point, which the source would read as a record, and ranges that end at the largest `uint32`, are not modelled.
- Acceptors.Acceptor.Restart: only the durable store; an acceptor restarted on the memory store has forgotten its promises.
- LearnerAgreement.LearnersAgree: only for genuine acks, for the reason shown by `RepeatsBreakAgreement`.
- ConservationInRuns.DroppedWasChosen: only for genuine acks, for the reason shown by `RepeatsDropUnchosen`.
- Timeouts.Pass: not for passes that never end, which are those with a timeout of zero or less and something overdue (`Timeouts.PassEndsIff`).
- A late-starting learner's first instance is whatever ack comes first; nothing is promised about the instances before it.
- Liveness and real time: `Progress.NeverStuck` says that a run can always go on to a choice, not that it will; clocks are integers read at each call, in whole seconds as the timeout test does.
- The counter's timers and signal handling, and its use of `sscanf` on a value: a log entry is already either a TRIM or not.
- `paxostest/sample` programs other than the counter, `flooding_test`, `multicast_test_bridge` and the CACE library: demos, glue, or code whose protocol partners are not in the repository.
- The `foreach` and free functions of the containers, which call a function on each element and release memory; logging; and the message converters, which copy fields from one struct to another.
