# The TinaCMS `audit` command, modelled in Dafny

The `audit` command of the TinaCMS command-line tool checks every content
collection's stored documents against the schema. For each collection it
first lists the documents with an unhydrated query. It then asks a
collection auditor for warnings and a document auditor for errors. It ORs
the answers into two run-level flags, `warning` and `error`, and writes them
to the run context. `printFinalMessage` then reports one of three outcomes.
With `--clean` the document auditor may rewrite content, so the command
first asks the operator to confirm. Declining ends the process with exit
status 0.

The model is two modules:

- `AuditCommand` (`audit.dfy`) holds the data model and the operations.
  - The store, the schema provider and the two auditors are oracles. For each
    collection, a `Response` gives what the listing query, `auditCollection`
    and `auditDocuments` would return, or `Throws`. A later answer is only
    consulted when the earlier calls returned.
  - Every call the loop makes, and every caught fault it logs, is recorded as
    an `Event`.
  - `Fold`, `Trace`, `Confirm` and `Run` are the specification functions.
  - `AuditCollections` is the `for` loop with its try/catch. It is proved
    against `Fold` and `Trace`.
  - `RunContext` is the run context. Its `Audit` method is the command: the
    gate, the advisory, the schema lookup, the loop, and the copy of the
    accumulators into the context.
  - `Report` is `printFinalMessage`.
- `AuditProperties` (`audit_properties.dfy`) holds the lemmas: what the flags
  mean, fault isolation, call order, monotonicity, the gate, the advisory,
  and the final report.

Collections are identified by their position in the schema's order. The
operator's reply to the prompt is the boolean `answer`. `process.exit(0)` is
the result `Exited(0)`. It returns before the loop and leaves the context
unchanged. The source does not assign the context's `warning` and `error`
before line 106. The model's constructor starts them at `false`, which the
reporter reads the same way as an unset field.

## Model

| member | source | states |
|---|---|---|
| `AuditCommand.Completes` | packages/@tinacms/cli/src/cmds/audit/index.ts:75-101 | defines a collection whose try body reaches the OR-assignments: the query and both auditors returned |
| `AuditCommand.Fold` | packages/@tinacms/cli/src/cmds/audit/index.ts:66-101 | defines the accumulators after the loop: false/false, then each collection's contribution ORed in, in schema order (its meaning is `FoldMeaning`) |
| `AuditCommand.Steps` | packages/@tinacms/cli/src/cmds/audit/index.ts:71-104 | defines the calls and the caught-fault log of one loop pass: the query, `auditCollection` if the query returned, `auditDocuments` if that returned too, and the log after any throw |
| `AuditCommand.Trace` | packages/@tinacms/cli/src/cmds/audit/index.ts:69-105 | defines all the calls of the loop: the passes of the collections, one after another in schema order (its order is `TraceOrdered`) |
| `AuditCommand.Run` | packages/@tinacms/cli/src/cmds/audit/index.ts:30-110 | defines the whole command: exit 0 on a declined prompt, a propagated schema fault, or the folded severities with the loop's trace and the advisory |
| `AuditCommand.Contribution` | packages/@tinacms/cli/src/cmds/audit/index.ts:71-104 | one pass of the loop body adds `auditCollection`'s result to `warning` and `auditDocuments`'s result to `error` only when the query and both auditors returned; a throw anywhere discards both |
| `AuditCommand.Confirm` | packages/@tinacms/cli/src/cmds/audit/index.ts:39-61 | the run aborts exactly when clean mode is on and the operator declines; the advisory is emitted exactly when `useDefaultValues` is set without `clean` |
| `AuditCommand.AuditCollections` | packages/@tinacms/cli/src/cmds/audit/index.ts:66-105 | the loop's final `warning`/`error` are the left OR-fold `Fold` of the collections' contributions, and the calls it makes are exactly `Trace` of the responses |
| `AuditCommand.RunContext.constructor` | packages/@tinacms/cli/src/cmds/audit/index.ts:30 | a fresh context carries the verbose flag and no severity |
| `AuditCommand.RunContext.Audit` | packages/@tinacms/cli/src/cmds/audit/index.ts:30-110 | the command's result is `Run` of its inputs; after a completed loop the context's fields hold the accumulators; on decline or a schema fault the context is unchanged |
| `AuditCommand.Report` | packages/@tinacms/cli/src/cmds/audit/index.ts:117-125 | Failed exactly when `error`; PassedWithWarnings exactly when not `error` and `warning`; Passed exactly when neither (so the three are exclusive and exhaustive) |
| `AuditProperties.FoldAppend` | packages/@tinacms/cli/src/cmds/audit/index.ts:100-101 | folding two runs of collections one after the other ORs their severities |
| `AuditProperties.FoldMeaning` | packages/@tinacms/cli/src/cmds/audit/index.ts:66-101 | `warning` holds iff some collection completed with `auditCollection` true; `error` holds iff some collection completed with `auditDocuments` true |
| `AuditProperties.FaultContributesNothing` | packages/@tinacms/cli/src/cmds/audit/index.ts:71-104 | a collection whose query or either auditor throws leaves the severities exactly as if it were absent |
| `AuditProperties.LateFaultDiscardsWarning` | packages/@tinacms/cli/src/cmds/audit/index.ts:84-104 | when `auditCollection` was called and returned true and `auditDocuments` then threw, that warning is still discarded |
| `AuditProperties.StepsInTrace` | packages/@tinacms/cli/src/cmds/audit/index.ts:69-104 | every call made for any collection appears in the trace of the whole loop |
| `AuditProperties.TraceJustified` | packages/@tinacms/cli/src/cmds/audit/index.ts:75-99 | each auditor is called only after that collection's query returned, with the documents it returned and the run's `useDefaultValues` and `verbose`; a fault is logged only for a collection that did not complete |
| `AuditProperties.TraceIndexBound` | packages/@tinacms/cli/src/cmds/audit/index.ts:69 | every call concerns one of the schema's collections |
| `AuditProperties.CallsForCollection` | packages/@tinacms/cli/src/cmds/audit/index.ts:69-104 | every collection is queried; `auditCollection` runs for it iff its query returned; `auditDocuments` runs iff `auditCollection` also returned; a fault is logged iff it did not complete |
| `AuditProperties.LaterCollectionsStillProcessed` | packages/@tinacms/cli/src/cmds/audit/index.ts:69-105 | after a fault in collection i, every later collection is still queried and its severities still reach the run |
| `AuditProperties.StepsOrdered` | packages/@tinacms/cli/src/cmds/audit/index.ts:75-103 | within one collection, the query precedes `auditCollection`, which precedes `auditDocuments`, which precedes the fault log |
| `AuditProperties.TraceOrdered` | packages/@tinacms/cli/src/cmds/audit/index.ts:69-104 | every call for an earlier collection comes before every call for a later one, and within a collection the steps come in order |
| `AuditProperties.FoldMonotone` | packages/@tinacms/cli/src/cmds/audit/index.ts:100-101 | once a prefix of the collections sets `warning` or `error`, every longer prefix keeps it set |
| `AuditProperties.DeclineAborts` | packages/@tinacms/cli/src/cmds/audit/index.ts:39-53 | in clean mode a declined prompt yields `Exited(0)` for every schema: a result that carries no trace of calls; that the context is then left unchanged is `RunContext.Audit`'s `unchanged(this)` clause |
| `AuditProperties.AnswerIgnoredWithoutClean` | packages/@tinacms/cli/src/cmds/audit/index.ts:39-54 | outside clean mode the prompt's answer changes nothing and the run never exits early |
| `AuditProperties.TraceUntagged` | packages/@tinacms/cli/src/cmds/audit/index.ts:84-99 | `useDefaultValues` changes the calls only in the flag forwarded to the auditors |
| `AuditProperties.DefaultsWithoutCleanOnlyAdvise` | packages/@tinacms/cli/src/cmds/audit/index.ts:55-101 | `useDefaultValues` without `clean` never aborts and adds the advisory; otherwise, for the same auditor answers, the run reaches the same severities and makes the same calls as without the flag, apart from the forwarded flag |
| `AuditProperties.ReportOfCollections` | packages/@tinacms/cli/src/cmds/audit/index.ts:100-125 | the final outcome is Failed iff some completed collection had document errors, PassedWithWarnings iff none had errors and some had warnings, Passed otherwise |
| `AuditProperties.PostsAndPagesFail` | packages/@tinacms/cli/src/cmds/audit/index.ts:69-125 | with collections `posts` (document errors) and `pages` (clean), and no warnings, the run is reported as Failed |

## Left out

- Telemetry (lines 31-38) is an external metrics call with no effect on the outcome. `noTelemetry` is therefore not an option of the model.
- The logger, `chalk` formatting, `console.error` and the `prompts` UI are terminal I/O. The prompt is the boolean `answer`. The clean-mode notice and the "not complete" warning are not modelled. The advisory is a boolean in the result. A caught fault is the event `FaultLogged`.
- `process.exit` is modelled as the result `Exited(0)`.
- The database, `getSchema`, `query`, `auditCollection` and `auditDocuments` are not part of this model. Each is an oracle answer that returns a value or throws. A throw from `getSchema` (line 64) is the result `SchemaFault` and propagates. Writes that the document auditor makes in clean mode are inside the oracle.
- The query's constant arguments (`first: -1`, an empty filter chain and the path-only item mapper) are not recorded in the `Query` event. The `collection`, `database` and `rootPath` arguments passed to both auditors (lines 85-87 and 93-95) are not recorded in `AuditCollectionCall` or `AuditDocumentsCall` either: the event's index names the collection, and the other two are the same for every call.
- Whether `useDefaultValues` affects the auditors without `--clean` depends on the auditors, which are not part of this model. The command still forwards the flag, and the model records that.
- `async`/`await` and the `next()` continuation are not modelled. The stages run in sequence.
- Running the command twice against an unchanged store gives the same report. This holds because `Run` is a function of its inputs, so no lemma states it.
