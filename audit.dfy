/**
 The `audit` command of the TinaCMS command-line tool: the clean-mode
 confirmation gate, the per-collection audit loop with its fault isolation
 and OR-aggregation of the two severities, and the final outcome reporter.

 The document store, the schema provider and the two auditors are oracles:
 for every collection, a `Response` says what each of the three calls made
 for it would return, or that it would throw.
 */
module AuditCommand {

  /** The result of a call into code the model does not see. */
  datatype Fallible<T> = Returns(value: T) | Throws

  /** The path of a document, as the unhydrated listing query returns it. */
  type DocRef = string

  /**
   What the store and the auditors answer for one collection: the listing
   query, then `auditCollection` (true = warnings), then `auditDocuments`
   (true = errors). A later answer is only consulted when every earlier
   call returned.
   */
  datatype Response = Response(
    query: Fallible<seq<DocRef>>,
    collectionAudit: Fallible<bool>,
    documentAudit: Fallible<bool>)

  /** The command-line options the core reads. */
  datatype Options = Options(clean: bool, useDefaultValues: bool)

  /** A pair of severities: for one collection, or accumulated over a run. */
  datatype Flags = Flags(warning: bool, error: bool)

  /** One observable step of the loop: a call made, or a caught fault logged. */
  datatype Event =
    | Query(index: nat)
    | AuditCollectionCall(index: nat, useDefaultValues: bool, documents: seq<DocRef>)
    | AuditDocumentsCall(index: nat, useDefaultValues: bool, verbose: bool, documents: seq<DocRef>)
    | FaultLogged(index: nat)

  /** What the confirmation gate and the flag advisory decide. */
  datatype Gate = Abort | Proceed(advisory: bool)

  /**
   How one run of `audit` ends: the process exits (operator declined clean
   mode), the schema provider throws (the fault propagates out of the
   command), or every collection was processed and the context was updated.
   */
  datatype RunResult =
    | Exited(status: int)
    | SchemaFault(advisory: bool)
    | Audited(advisory: bool, warning: bool, error: bool, calls: seq<Event>)

  /** The three final outcomes of `printFinalMessage`. */
  datatype Outcome = Failed | PassedWithWarnings | Passed

  /** All three calls for the collection returned: none of them threw. */
  predicate Completes(r: Response)
  {
    r.query.Returns? && r.collectionAudit.Returns? && r.documentAudit.Returns?
  }

  /**
   What one pass of the loop body ORs into the accumulators: the OR happens
   after both auditors returned, so a throw anywhere in the body discards
   both results.
   */
  function Contribution(r: Response): (f: Flags)
    ensures f.warning <==> Completes(r) && r.collectionAudit.value
    ensures f.error <==> Completes(r) && r.documentAudit.value
  {
    match r.query
    case Throws => Flags(false, false)
    case Returns(_) =>
      match r.collectionAudit
      case Throws => Flags(false, false)
      case Returns(returnWarning) =>
        match r.documentAudit
        case Throws => Flags(false, false)
        case Returns(returnError) => Flags(returnWarning, returnError)
  }

  /** The accumulators after the loop has processed `rs`, in order, from false/false. */
  function Fold(rs: seq<Response>): (f: Flags)
  {
    if rs == [] then Flags(false, false)
    else
      var before := Fold(rs[..|rs| - 1]);
      var c := Contribution(rs[|rs| - 1]);
      Flags(before.warning || c.warning, before.error || c.error)
  }

  /** The events of one pass of the loop body for the collection at `index`. */
  function Steps(index: nat, r: Response, useDefaultValues: bool, verbose: bool): seq<Event>
  {
    match r.query
    case Throws => [Query(index), FaultLogged(index)]
    case Returns(docs) =>
      [Query(index), AuditCollectionCall(index, useDefaultValues, docs)] +
      match r.collectionAudit
      case Throws => [FaultLogged(index)]
      case Returns(_) =>
        [AuditDocumentsCall(index, useDefaultValues, verbose, docs)] +
        if r.documentAudit.Throws? then [FaultLogged(index)] else []
  }

  /** The events of the whole loop over `rs`, collection by collection. */
  function Trace(rs: seq<Response>, useDefaultValues: bool, verbose: bool): seq<Event>
  {
    if rs == [] then []
    else Trace(rs[..|rs| - 1], useDefaultValues, verbose)
         + Steps(|rs| - 1, rs[|rs| - 1], useDefaultValues, verbose)
  }

  /**
   The confirmation gate and the advisory: `answer` is what the operator
   replies to the prompt, which is only shown in clean mode.
   */
  function Confirm(options: Options, answer: bool): (g: Gate)
    ensures g.Abort? <==> options.clean && !answer
    ensures g.Proceed? ==> (g.advisory <==> options.useDefaultValues && !options.clean)
  {
    if options.clean && !answer then Abort
    else Proceed(options.useDefaultValues && !options.clean)
  }

  /** The whole `audit` command, as a function of its inputs. */
  function Run(options: Options, answer: bool, schema: Fallible<seq<Response>>, verbose: bool): RunResult
  {
    match Confirm(options, answer)
    case Abort => Exited(0)
    case Proceed(advisory) =>
      match schema
      case Throws => SchemaFault(advisory)
      case Returns(rs) =>
        var f := Fold(rs);
        Audited(advisory, f.warning, f.error, Trace(rs, options.useDefaultValues, verbose))
  }

  /**
   The per-collection loop: walks the collections in order, lists each
   one's documents, runs both auditors, ORs their results into the
   accumulators and catches any throw so that the next collection is still
   processed.
   */
  method AuditCollections(responses: seq<Response>, useDefaultValues: bool, verbose: bool)
    returns (warning: bool, error: bool, calls: seq<Event>)
    ensures Flags(warning, error) == Fold(responses)
    ensures calls == Trace(responses, useDefaultValues, verbose)
  {
    warning, error, calls := false, false, [];
    var i := 0;
    while i < |responses|
      invariant 0 <= i <= |responses|
      invariant Flags(warning, error) == Fold(responses[..i])
      invariant calls == Trace(responses[..i], useDefaultValues, verbose)
    {
      ghost var before := calls;
      var r := responses[i];
      calls := calls + [Query(i)];
      match r.query {
        case Throws =>
          calls := calls + [FaultLogged(i)];
        case Returns(docs) =>
          calls := calls + [AuditCollectionCall(i, useDefaultValues, docs)];
          match r.collectionAudit {
            case Throws =>
              calls := calls + [FaultLogged(i)];
            case Returns(returnWarning) =>
              calls := calls + [AuditDocumentsCall(i, useDefaultValues, verbose, docs)];
              match r.documentAudit {
                case Throws =>
                  calls := calls + [FaultLogged(i)];
                case Returns(returnError) =>
                  warning := warning || returnWarning;
                  error := error || returnError;
              }
          }
      }
      assert calls == before + Steps(i, r, useDefaultValues, verbose);
      assert Flags(warning, error) == Flags(Fold(responses[..i]).warning || Contribution(r).warning,
                                            Fold(responses[..i]).error || Contribution(r).error);
      assert responses[..i + 1][..i] == responses[..i];
      i := i + 1;
    }
    assert responses[..i] == responses;
  }

  /** The run context the command threads through its stages. */
  class RunContext {
    const verbose: bool
    var warning: bool
    var error: bool

    /** A fresh context; the severity fields read as unset (falsy). */
    constructor (verbose: bool)
      ensures this.verbose == verbose && !warning && !error
    {
      this.verbose := verbose;
      warning, error := false, false;
    }

    /**
     The `audit` command: the gate, the advisory, the schema lookup, the
     loop, and the copy of the accumulators into the context.
     */
    method Audit(options: Options, answer: bool, schema: Fallible<seq<Response>>)
      returns (r: RunResult)
      modifies this
      ensures r == Run(options, answer, schema, verbose)
      ensures r.Audited? ==> warning == r.warning && error == r.error
      ensures !r.Audited? ==> unchanged(this)
    {
      if options.clean {
        if !answer {
          return Exited(0);
        }
      }
      var advisory := options.useDefaultValues && !options.clean;
      match schema {
        case Throws =>
          return SchemaFault(advisory);
        case Returns(collections) =>
          var w, e, calls := AuditCollections(collections, options.useDefaultValues, verbose);
          warning := w;
          error := e;
          r := Audited(advisory, w, e, calls);
      }
    }
  }

  /** `printFinalMessage`: errors take precedence over warnings. */
  function Report(error: bool, warning: bool): (o: Outcome)
    ensures o == Failed <==> error
    ensures o == PassedWithWarnings <==> !error && warning
    ensures o == Passed <==> !error && !warning
  {
    if error then Failed
    else if warning then PassedWithWarnings
    else Passed
  }
}
