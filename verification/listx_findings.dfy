/**
 Where WalkTags departs from its own doc comment, which says the walk aborts
 at the first error, silences ErrStop and passes every other error to the
 caller as it is.

 As written, the top-level loop declares a fresh `err` in every round, so the
 value WalkTags returns is never assigned after the process has started
 (Walker.WalkTags: `err == NoError`), and a handler error only ends the
 current `<taginfo>`: the loop reads on.  `WalkIntended` is the walk the doc
 comment describes; the lemmas set both side by side on catalogs.
 */
module ListXFindings {
  import opened XmlTokens
  import opened ListX
  import opened ListXMachine
  import opened ListXCatalog

  /** The answer to the last tag handed over, if any. */
  predicate LastAnswered(sent: seq<Tag>, h: Handler, v: Verdict) {
    sent != [] && h(sent[|sent| - 1]) == v
  }

  /** The top-level loop with the error kept: ErrStop from a `<taginfo>`
      ends the walk with nil, any other error ends it and is returned; a
      clean end of stream at the document level is nil. */
  function WalkIntended(toks: seq<Token>, pos: nat, h: Handler): (r: WalkOutcome)
    requires pos <= |toks|
    ensures r.inner != ErrStop
    ensures forall i :: 0 <= i < |r.sent| - 1 ==> h(r.sent[i]) == Continue
    ensures r.sent != [] && h(r.sent[|r.sent| - 1]).Fail? ==>
      r.inner == HandlerError(h(r.sent[|r.sent| - 1]).reason)
    ensures r.inner.HandlerError? ==> LastAnswered(r.sent, h, Fail(r.inner.reason))
    decreases |toks| - pos
  {
    match ReadAt(toks, pos)
    case Failed(e) => WalkOutcome(if e == EOF then NoError else e, [])
    case Got(tk, next) =>
      if tk.Start? && tk.name == "taginfo" then
        var o := InfoLoop(toks, next, h);
        if o.err == ErrStop then WalkOutcome(NoError, o.sent)
        else if o.err != NoError then WalkOutcome(o.err, o.sent)
        else
          var rest := WalkIntended(toks, o.pos, h);
          ContinuedChain(toks, h, o, rest);
          PrependWalk(o.sent, rest)
      else WalkIntended(toks, next, h)
  }

  /** A `<taginfo>` that returned nil, followed by the rest of the walk. */
  lemma ContinuedChain(toks: seq<Token>, h: Handler, o: Outcome, rest: WalkOutcome)
    requires o.err == NoError && Propagated(toks, h, o)
    requires forall i :: 0 <= i < |rest.sent| - 1 ==> h(rest.sent[i]) == Continue
    requires rest.sent != [] && h(rest.sent[|rest.sent| - 1]).Fail? ==>
      rest.inner == HandlerError(h(rest.sent[|rest.sent| - 1]).reason)
    requires rest.inner.HandlerError? ==> LastAnswered(rest.sent, h, Fail(rest.inner.reason))
    ensures var r := PrependWalk(o.sent, rest);
      (forall i :: 0 <= i < |r.sent| - 1 ==> h(r.sent[i]) == Continue) &&
      (r.sent != [] && h(r.sent[|r.sent| - 1]).Fail? ==> r.inner == HandlerError(h(r.sent[|r.sent| - 1]).reason)) &&
      (r.inner.HandlerError? ==> LastAnswered(r.sent, h, Fail(r.inner.reason)))
  {
    var s := o.sent + rest.sent;
    forall i | 0 <= i < |s| - 1 ensures h(s[i]) == Continue {
      if i < |o.sent| {
        assert s[i] == o.sent[i];
      } else {
        assert s[i] == rest.sent[i - |o.sent|];
      }
    }
    if rest.sent != [] {
      assert s[|s| - 1] == rest.sent[|rest.sent| - 1];
    } else {
      assert s == o.sent;
    }
  }

  /** The walk as written hands over everything the intended walk does, and
      exactly the same tags unless the intended walk ended on a handler
      error. */
  lemma {:induction false} IntendedVsWritten(toks: seq<Token>, pos: nat, h: Handler)
    requires pos <= |toks|
    ensures var v := WalkIntended(toks, pos, h);
      var w := WalkLoop(toks, pos, h);
      v.sent <= w.sent && (!v.inner.HandlerError? ==> v.sent == w.sent)
    decreases |toks| - pos
  {
    match ReadAt(toks, pos)
    case Failed(e) =>
    case Got(tk, next) =>
      if tk.Start? && tk.name == "taginfo" {
        var o := InfoLoop(toks, next, h);
        if o.err == NoError {
          IntendedVsWritten(toks, o.pos, h);
        } else if o.err != ErrStop && !o.err.HandlerError? {
          assert FailsAt(toks, o.pos, o.err);
          assert WalkLoop(toks, o.pos, h).sent == [];
          assert o.sent + [] == o.sent;
        }
      } else {
        IntendedVsWritten(toks, next, h);
      }
  }

  /** As written: the handler rejects the first tag of a catalog with an
      error other than ErrStop.  The walk hands over that one tag and its
      status stays nil; no later tag is handed over either, because the loop
      reads on looking for another `<taginfo>`. */
  lemma HandlerFailureSwallowed(c: Catalog, h: Handler)
    requires WellFormed(c)
    requires CatalogTags(c) != [] && h(CatalogTags(c)[0]).Fail?
    ensures WalkLoop(CatalogTokens(c), 0, h) == WalkOutcome(NoError, [CatalogTags(c)[0]])
  {
    WalkDeliversCatalog(c, h);
    CatalogStatusNil(c, h);
  }

  /** Intended: the same walk returns the handler's error. */
  lemma IntendedReportsFailure(c: Catalog, h: Handler)
    requires WellFormed(c)
    requires CatalogTags(c) != [] && h(CatalogTags(c)[0]).Fail?
    ensures WalkIntended(CatalogTokens(c), 0, h) ==
      WalkOutcome(HandlerError(h(CatalogTags(c)[0]).reason), [CatalogTags(c)[0]])
  {
    var first := CatalogTags(c)[0];
    var v := WalkIntended(CatalogTokens(c), 0, h);
    WalkDeliversCatalog(c, h);
    IntendedVsWritten(CatalogTokens(c), 0, h);
    assert v.sent <= [first];
    if !v.inner.HandlerError? {
      assert false;
    }
    assert v.sent == [first];
  }

  /** As written: two catalogs in a row and a handler that rejects every tag.
      The first rejection does not end the walk: the second catalog's first
      tag is handed over as well. */
  lemma FailureDoesNotEndWalk(c1: Catalog, c2: Catalog, h: Handler)
    requires WellFormed(c1) && WellFormed(c2)
    requires forall t :: h(t).Fail?
    requires CatalogTags(c1) != [] && CatalogTags(c2) != []
    ensures WalkLoop(CatalogTokens(c1) + CatalogTokens(c2), 0, h).sent ==
      [CatalogTags(c1)[0], CatalogTags(c2)[0]]
  {
    var toks := CatalogTokens(c1) + CatalogTokens(c2);
    WalkIsMachine(toks, h);
    ExecConcat(CatalogTokens(c1), CatalogTokens(c2), Top, h);
    ExecCatalog(c1, h);
    ExecCatalog(c2, h);
    assert !AllContinue(CatalogTags(c1), h) by {
      assert h(CatalogTags(c1)[0]).Fail?;
    }
    assert !AllContinue(CatalogTags(c2), h) by {
      assert h(CatalogTags(c2)[0]).Fail?;
    }
  }

  /** Intended: the walk ends at the first rejection and returns it. */
  lemma IntendedStopsAtFailure(c1: Catalog, c2: Catalog, h: Handler)
    requires WellFormed(c1) && WellFormed(c2)
    requires forall t :: h(t).Fail?
    requires CatalogTags(c1) != [] && CatalogTags(c2) != []
    ensures WalkIntended(CatalogTokens(c1) + CatalogTokens(c2), 0, h) ==
      WalkOutcome(HandlerError(h(CatalogTags(c1)[0]).reason), [CatalogTags(c1)[0]])
  {
    var toks := CatalogTokens(c1) + CatalogTokens(c2);
    var t1 := CatalogTags(c1)[0];
    var v := WalkIntended(toks, 0, h);
    FailureDoesNotEndWalk(c1, c2, h);
    IntendedVsWritten(toks, 0, h);
    assert h(t1).Fail?;
    if !v.inner.HandlerError? {
      assert false;
    }
    assert v.sent != [] && v.sent[0] == t1;
    if |v.sent| > 1 {
      assert false;
    }
    assert v.sent == [t1];
  }
}
