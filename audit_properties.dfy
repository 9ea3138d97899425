/**
 Properties of the `audit` command: what the run-level severities mean,
 how a faulting collection is isolated, the order of the calls, the
 confirmation gate, the advisory, and the final report.
 */
module AuditProperties {
  import opened AuditCommand

  /** Some collection completed and its `auditCollection` reported warnings. */
  ghost predicate SomeWarning(rs: seq<Response>)
  {
    exists i :: 0 <= i < |rs| && Completes(rs[i]) && rs[i].collectionAudit.value
  }

  /** Some collection completed and its `auditDocuments` reported errors. */
  ghost predicate SomeError(rs: seq<Response>)
  {
    exists i :: 0 <= i < |rs| && Completes(rs[i]) && rs[i].documentAudit.value
  }

  /** Position of an event inside one pass of the loop body. */
  function Rank(e: Event): nat
  {
    match e
    case Query(_) => 0
    case AuditCollectionCall(_, _, _) => 1
    case AuditDocumentsCall(_, _, _, _) => 2
    case FaultLogged(_) => 3
  }

  /** `a` happens strictly before `b`: an earlier collection, or an earlier step of the same one. */
  predicate Precedes(a: Event, b: Event)
  {
    a.index < b.index || (a.index == b.index && Rank(a) < Rank(b))
  }

  /**
   What an event in the trace of `rs` tells about the oracle: an auditor is
   called only after the query returned, with the documents it returned and
   the flags of the run; a fault is logged only for a collection that did
   not complete.
   */
  ghost predicate Justified(rs: seq<Response>, e: Event, useDefaultValues: bool, verbose: bool)
  {
    e.index < |rs| &&
    match e
    case Query(_) => true
    case AuditCollectionCall(i, u, docs) =>
      u == useDefaultValues && rs[i].query == Returns(docs)
    case AuditDocumentsCall(i, u, v, docs) =>
      u == useDefaultValues && v == verbose &&
      rs[i].query == Returns(docs) && rs[i].collectionAudit.Returns?
    case FaultLogged(i) => !Completes(rs[i])
  }

  /** An event with the forwarded flags erased. */
  function Untagged(e: Event): Event
  {
    match e
    case AuditCollectionCall(i, _, docs) => AuditCollectionCall(i, false, docs)
    case AuditDocumentsCall(i, _, v, docs) => AuditDocumentsCall(i, false, v, docs)
    case _ => e
  }

  /** Folding a concatenation ORs the folds of the two parts. */
  lemma {:induction false} FoldAppend(a: seq<Response>, b: seq<Response>)
    ensures Fold(a + b).warning == (Fold(a).warning || Fold(b).warning)
    ensures Fold(a + b).error == (Fold(a).error || Fold(b).error)
  {
    if b == [] {
      assert a + b == a;
    } else {
      var n := |b| - 1;
      assert (a + b)[..|a + b| - 1] == a + b[..n];
      assert (a + b)[|a + b| - 1] == b[n];
      FoldAppend(a, b[..n]);
    }
  }

  /**
   The run-level severities after the loop: `warning` holds exactly when
   some collection completed with `auditCollection` true, `error` exactly
   when some collection completed with `auditDocuments` true.
   */
  lemma {:induction false} FoldMeaning(rs: seq<Response>)
    ensures Fold(rs).warning <==> SomeWarning(rs)
    ensures Fold(rs).error <==> SomeError(rs)
  {
    if rs != [] {
      var n := |rs| - 1;
      var p := rs[..n];
      FoldMeaning(p);
      if SomeWarning(p) {
        var i :| 0 <= i < |p| && Completes(p[i]) && p[i].collectionAudit.value;
        assert rs[i] == p[i];
      }
      if SomeError(p) {
        var i :| 0 <= i < |p| && Completes(p[i]) && p[i].documentAudit.value;
        assert rs[i] == p[i];
      }
      if SomeWarning(rs) {
        var i :| 0 <= i < |rs| && Completes(rs[i]) && rs[i].collectionAudit.value;
        if i < n { assert p[i] == rs[i]; }
      }
      if SomeError(rs) {
        var i :| 0 <= i < |rs| && Completes(rs[i]) && rs[i].documentAudit.value;
        if i < n { assert p[i] == rs[i]; }
      }
    }
  }

  /**
   A collection whose query or either auditor throws contributes nothing:
   the severities are those of the run without it.
   */
  lemma FaultContributesNothing(rs: seq<Response>, i: nat)
    requires i < |rs| && !Completes(rs[i])
    ensures Fold(rs) == Fold(rs[..i] + rs[i + 1..])
  {
    assert rs == rs[..i] + [rs[i]] + rs[i + 1..];
    FoldAppend(rs[..i] + [rs[i]], rs[i + 1..]);
    FoldAppend(rs[..i], [rs[i]]);
    FoldAppend(rs[..i], rs[i + 1..]);
    assert [rs[i]][..0] == [];
  }

  /** The events of every pass of the loop body appear in the trace. */
  lemma {:induction false} StepsInTrace(rs: seq<Response>, i: nat, useDefaultValues: bool, verbose: bool)
    requires i < |rs|
    ensures forall e :: e in Steps(i, rs[i], useDefaultValues, verbose) ==> e in Trace(rs, useDefaultValues, verbose)
  {
    var n := |rs| - 1;
    if i < n {
      StepsInTrace(rs[..n], i, useDefaultValues, verbose);
      assert rs[..n][i] == rs[i];
    }
  }

  /** Every event in the trace is justified by the oracle's answers. */
  lemma {:induction false} TraceJustified(rs: seq<Response>, useDefaultValues: bool, verbose: bool)
    ensures forall e :: e in Trace(rs, useDefaultValues, verbose) ==> Justified(rs, e, useDefaultValues, verbose)
  {
    if rs != [] {
      var n := |rs| - 1;
      var p := rs[..n];
      TraceJustified(p, useDefaultValues, verbose);
      forall e | e in Trace(rs, useDefaultValues, verbose)
        ensures Justified(rs, e, useDefaultValues, verbose)
      {
        if e in Trace(p, useDefaultValues, verbose) {
          assert Justified(p, e, useDefaultValues, verbose);
          assert p[e.index] == rs[e.index];
        } else {
          assert e in Steps(n, rs[n], useDefaultValues, verbose);
        }
      }
    }
  }

  /** Every event in the trace belongs to one of the collections. */
  lemma TraceIndexBound(rs: seq<Response>, useDefaultValues: bool, verbose: bool)
    ensures forall e :: e in Trace(rs, useDefaultValues, verbose) ==> e.index < |rs|
  {
    TraceJustified(rs, useDefaultValues, verbose);
  }

  /**
   Which calls are made for collection `i`: the query always;
   `auditCollection` exactly when the query returned; `auditDocuments`
   exactly when `auditCollection` returned too; and a fault is logged
   exactly when the collection did not complete.
   */
  lemma CallsForCollection(rs: seq<Response>, i: nat, useDefaultValues: bool, verbose: bool)
    requires i < |rs|
    ensures Query(i) in Trace(rs, useDefaultValues, verbose)
    ensures (exists e :: e in Trace(rs, useDefaultValues, verbose) && e.AuditCollectionCall? && e.index == i)
            <==> rs[i].query.Returns?
    ensures (exists e :: e in Trace(rs, useDefaultValues, verbose) && e.AuditDocumentsCall? && e.index == i)
            <==> rs[i].query.Returns? && rs[i].collectionAudit.Returns?
    ensures FaultLogged(i) in Trace(rs, useDefaultValues, verbose) <==> !Completes(rs[i])
  {
    StepsInTrace(rs, i, useDefaultValues, verbose);
    TraceJustified(rs, useDefaultValues, verbose);
    var t := Trace(rs, useDefaultValues, verbose);
    var s := Steps(i, rs[i], useDefaultValues, verbose);
    assert Query(i) in s;
    if rs[i].query.Returns? {
      var docs := rs[i].query.value;
      assert AuditCollectionCall(i, useDefaultValues, docs) in s;
      if rs[i].collectionAudit.Returns? {
        assert AuditDocumentsCall(i, useDefaultValues, verbose, docs) in s;
      }
    }
    if !Completes(rs[i]) {
      assert FaultLogged(i) in s;
    }
    if FaultLogged(i) in t {
      assert Justified(rs, FaultLogged(i), useDefaultValues, verbose);
    }
  }

  /**
   The case the loop's layout makes special: `auditCollection` was called
   and returned true, then `auditDocuments` threw. The warning it returned
   is discarded.
   */
  lemma LateFaultDiscardsWarning(rs: seq<Response>, i: nat, useDefaultValues: bool, verbose: bool)
    requires i < |rs|
    requires rs[i].query.Returns? && rs[i].collectionAudit == Returns(true) && rs[i].documentAudit.Throws?
    ensures AuditCollectionCall(i, useDefaultValues, rs[i].query.value) in Trace(rs, useDefaultValues, verbose)
    ensures Fold(rs) == Fold(rs[..i] + rs[i + 1..])
  {
    StepsInTrace(rs, i, useDefaultValues, verbose);
    assert AuditCollectionCall(i, useDefaultValues, rs[i].query.value) in Steps(i, rs[i], useDefaultValues, verbose);
    FaultContributesNothing(rs, i);
  }

  /**
   A fault in collection `i` does not stop the loop: every later
   collection is still queried, and its severities still reach the run.
   */
  lemma LaterCollectionsStillProcessed(rs: seq<Response>, i: nat, useDefaultValues: bool, verbose: bool)
    requires i < |rs| && !Completes(rs[i])
    ensures forall j :: i < j < |rs| ==> Query(j) in Trace(rs, useDefaultValues, verbose)
    ensures forall j :: i < j < |rs| && Contribution(rs[j]).warning ==> Fold(rs).warning
    ensures forall j :: i < j < |rs| && Contribution(rs[j]).error ==> Fold(rs).error
  {
    forall j | i < j < |rs|
      ensures Query(j) in Trace(rs, useDefaultValues, verbose)
    {
      CallsForCollection(rs, j, useDefaultValues, verbose);
    }
    FoldMeaning(rs);
  }

  /** The events of one pass of the loop body are in order and all about that collection. */
  lemma StepsOrdered(index: nat, r: Response, useDefaultValues: bool, verbose: bool)
    ensures forall e :: e in Steps(index, r, useDefaultValues, verbose) ==> e.index == index
    ensures forall p, q :: 0 <= p < q < |Steps(index, r, useDefaultValues, verbose)| ==>
      Rank(Steps(index, r, useDefaultValues, verbose)[p]) < Rank(Steps(index, r, useDefaultValues, verbose)[q])
  {
  }

  /**
   The calls happen in schema order, and for each collection the query
   comes before `auditCollection`, which comes before `auditDocuments`.
   */
  lemma {:induction false} TraceOrdered(rs: seq<Response>, useDefaultValues: bool, verbose: bool)
    ensures forall p, q :: 0 <= p < q < |Trace(rs, useDefaultValues, verbose)| ==>
      Precedes(Trace(rs, useDefaultValues, verbose)[p], Trace(rs, useDefaultValues, verbose)[q])
  {
    if rs != [] {
      var n := |rs| - 1;
      var pre := Trace(rs[..n], useDefaultValues, verbose);
      var s := Steps(n, rs[n], useDefaultValues, verbose);
      var t := Trace(rs, useDefaultValues, verbose);
      assert t == pre + s;
      TraceOrdered(rs[..n], useDefaultValues, verbose);
      TraceIndexBound(rs[..n], useDefaultValues, verbose);
      StepsOrdered(n, rs[n], useDefaultValues, verbose);
      forall p, q | 0 <= p < q < |t|
        ensures Precedes(t[p], t[q])
      {
        if q < |pre| {
          assert t[p] == pre[p] && t[q] == pre[q];
        } else if p < |pre| {
          assert t[p] == pre[p] && pre[p] in pre;
          assert t[q] == s[q - |pre|] && s[q - |pre|] in s;
        } else {
          assert t[p] == s[p - |pre|] && t[q] == s[q - |pre|];
        }
      }
    }
  }

  /**
   The accumulators are monotone: once a prefix of the collections set
   `warning` or `error`, every longer prefix keeps it set.
   */
  lemma {:induction false} FoldMonotone(rs: seq<Response>, k: nat, m: nat)
    requires k <= m <= |rs|
    ensures Fold(rs[..k]).warning ==> Fold(rs[..m]).warning
    ensures Fold(rs[..k]).error ==> Fold(rs[..m]).error
  {
    if k < m {
      FoldMonotone(rs, k, m - 1);
      assert rs[..m][..m - 1] == rs[..m - 1];
    }
  }

  /** Declining the clean-mode prompt exits with status 0 before any collection is touched. */
  lemma DeclineAborts(options: Options, schema: Fallible<seq<Response>>, verbose: bool)
    requires options.clean
    ensures Run(options, false, schema, verbose) == Exited(0)
  {
  }

  /** Outside clean mode no prompt is shown: the answer makes no difference. */
  lemma AnswerIgnoredWithoutClean(options: Options, answer: bool, schema: Fallible<seq<Response>>, verbose: bool)
    requires !options.clean
    ensures Run(options, answer, schema, verbose) == Run(options, !answer, schema, verbose)
    ensures !Run(options, answer, schema, verbose).Exited?
  {
  }

  /** The trace does not depend on `useDefaultValues` except in the flag it forwards. */
  lemma {:induction false} TraceUntagged(rs: seq<Response>, u: bool, u': bool, verbose: bool)
    ensures |Trace(rs, u, verbose)| == |Trace(rs, u', verbose)|
    ensures forall k :: 0 <= k < |Trace(rs, u, verbose)| ==>
      Untagged(Trace(rs, u, verbose)[k]) == Untagged(Trace(rs, u', verbose)[k])
  {
    if rs != [] {
      var n := |rs| - 1;
      TraceUntagged(rs[..n], u, u', verbose);
      var a, b := Trace(rs[..n], u, verbose), Trace(rs[..n], u', verbose);
      var sa, sb := Steps(n, rs[n], u, verbose), Steps(n, rs[n], u', verbose);
      assert |sa| == |sb|;
      forall k | 0 <= k < |sa| ensures Untagged(sa[k]) == Untagged(sb[k]) { }
      forall k | 0 <= k < |a + sa| ensures Untagged((a + sa)[k]) == Untagged((b + sb)[k])
      {
        if k < |a| {
          assert (a + sa)[k] == a[k] && (b + sb)[k] == b[k];
        } else {
          assert (a + sa)[k] == sa[k - |a|] && (b + sb)[k] == sb[k - |a|];
        }
      }
    }
  }

  /**
   `useDefaultValues` without `clean` only adds the advisory: the run does
   not abort, and for the same auditor answers it makes the same calls and
   reaches the same severities as a run without the flag (which is still
   forwarded to the auditors, so they may answer differently).
   */
  lemma DefaultsWithoutCleanOnlyAdvise(options: Options, answer: bool, schema: Fallible<seq<Response>>, verbose: bool)
    requires options.useDefaultValues && !options.clean
    ensures !Run(options, answer, schema, verbose).Exited?
    ensures Run(options, answer, schema, verbose).advisory
    ensures !Run(options.(useDefaultValues := false), answer, schema, verbose).advisory
    ensures schema.Throws? ==> Run(options, answer, schema, verbose) == SchemaFault(true)
    ensures schema.Returns? ==>
      var r, r' := Run(options, answer, schema, verbose), Run(options.(useDefaultValues := false), answer, schema, verbose);
      r.Audited? && r'.Audited? && r.warning == r'.warning && r.error == r'.error &&
      |r.calls| == |r'.calls| &&
      forall k :: 0 <= k < |r.calls| ==> Untagged(r.calls[k]) == Untagged(r'.calls[k])
  {
    if schema.Returns? {
      TraceUntagged(schema.value, true, false, verbose);
    }
  }

  /**
   What the final message says about the collections: Failed exactly when
   some completed collection had document errors; PassedWithWarnings
   exactly when none had errors but some had warnings; Passed otherwise.
   */
  lemma ReportOfCollections(rs: seq<Response>)
    ensures Report(Fold(rs).error, Fold(rs).warning) == Failed <==> SomeError(rs)
    ensures Report(Fold(rs).error, Fold(rs).warning) == PassedWithWarnings <==> !SomeError(rs) && SomeWarning(rs)
    ensures Report(Fold(rs).error, Fold(rs).warning) == Passed <==> !SomeError(rs) && !SomeWarning(rs)
  {
    FoldMeaning(rs);
  }

  /**
   Two collections, `posts` and `pages`: the document auditor reports
   errors for `posts` only, neither collection auditor reports warnings.
   The run fails.
   */
  lemma PostsAndPagesFail(answer: bool, verbose: bool)
    ensures var rs := [Response(Returns(["content/posts/hello.md"]), Returns(false), Returns(true)),
                       Response(Returns(["content/pages/about.md"]), Returns(false), Returns(false))];
            var r := Run(Options(false, false), answer, Returns(rs), verbose);
            r.Audited? && Report(r.error, r.warning) == Failed
  {
    var rs := [Response(Returns(["content/posts/hello.md"]), Returns(false), Returns(true)),
               Response(Returns(["content/pages/about.md"]), Returns(false), Returns(false))];
    assert rs[..1][..0] == [];
    assert rs[..1] == [rs[0]];
  }
}
