/**
 The response body the drain produces, as one JSON document.

 `Body` is the document the framing is meant to produce: `{"tags": [`, the
 encoded records joined by single commas, and `]}`; when no tag arrives the
 writer is never primed and the body is `]}` alone.  The theorems say the
 drain writes exactly the part of `Body` the response accepts, fails exactly
 when `Body` does not fit, and stops taking tags at the first failed write.
 */
module ApiBody {
  import opened ListX
  import opened Api

  /** The encoded records, in order. */
  function Records(tags: seq<Tag>, enc: TagInfo -> string): (r: seq<string>)
    ensures |r| == |tags|
  {
    if tags == [] then [] else [enc(ToTagInfo(tags[0]))] + Records(tags[1..], enc)
  }

  /** The strings separated by single commas. */
  function Join(rs: seq<string>): string {
    if |rs| == 0 then ""
    else if |rs| == 1 then rs[0]
    else rs[0] + "," + Join(rs[1..])
  }

  function Body(tags: seq<Tag>, enc: TagInfo -> string): string {
    if tags == [] then Close else Open + Join(Records(tags, enc)) + Close
  }

  /** The text once the first `k` records have been written. */
  function Sent(tags: seq<Tag>, k: nat, enc: TagInfo -> string): string
    requires k <= |tags|
  {
    Open + Join(Records(tags[..k], enc))
  }

  /** What a response accepting `limit` characters holds of `x`. */
  function Trunc(x: string, limit: nat): (r: string)
    ensures r <= x && |r| <= limit
    ensures |x| <= limit ==> r == x
  {
    if |x| <= limit then x else x[..limit]
  }

  // ---------------------------------------------------------------------
  // The shape of the document

  lemma {:induction false} JoinSnoc(rs: seq<string>, x: string)
    requires rs != []
    ensures Join(rs + [x]) == Join(rs) + "," + x
    decreases |rs|
  {
    if |rs| == 1 {
      assert (rs + [x])[1..] == [x];
    } else {
      assert (rs + [x])[1..] == rs[1..] + [x];
      JoinSnoc(rs[1..], x);
    }
  }

  lemma {:induction false} RecordsSnoc(tags: seq<Tag>, k: nat, enc: TagInfo -> string)
    requires k < |tags|
    ensures Records(tags[..k + 1], enc) == Records(tags[..k], enc) + [enc(ToTagInfo(tags[k]))]
    decreases k
  {
    if k > 0 {
      assert tags[..k + 1][1..] == tags[1..][..k];
      assert tags[..k][1..] == tags[1..][..k - 1];
      RecordsSnoc(tags[1..], k - 1, enc);
    }
  }

  /** Record `k` follows the first `k`, after a comma unless it is the first. */
  lemma SentStep(tags: seq<Tag>, k: nat, enc: TagInfo -> string)
    requires k < |tags|
    ensures Sent(tags, k + 1, enc) == Sent(tags, k, enc) + (if k > 0 then "," else "") + enc(ToTagInfo(tags[k]))
  {
    RecordsSnoc(tags, k, enc);
    var rs := Records(tags[..k], enc);
    var x := enc(ToTagInfo(tags[k]));
    if k > 0 {
      JoinSnoc(rs, x);
    } else {
      assert rs + [x] == [x];
    }
  }

  /** The text after `k` records is a prefix of the body. */
  lemma {:induction false} SentPrefix(tags: seq<Tag>, k: nat, enc: TagInfo -> string)
    requires k <= |tags| && tags != []
    ensures Sent(tags, k, enc) <= Body(tags, enc)
    decreases |tags| - k
  {
    if k == |tags| {
      assert tags[..k] == tags;
    } else {
      SentPrefix(tags, k + 1, enc);
      SentStep(tags, k, enc);
    }
  }

  /** Two texts that agree on a prefix longer than the limit are cut the same. */
  lemma TruncAgree(x: string, y: string, limit: nat)
    requires x <= y && |x| > limit
    ensures Trunc(x, limit) == Trunc(y, limit)
  {
    assert x[..limit] == y[..limit];
  }

  // ---------------------------------------------------------------------
  // What the drain writes

  /** The drain after `k >= 1` records went out in full: the response holds
      the part of the body that fits, failing exactly when the body does not
      fit, and the drain takes records up to the first that does not fit. */
  predicate DrainedFrom(tags: seq<Tag>, k: nat, limit: nat, enc: TagInfo -> string, r: Served)
    requires k <= |tags|
  {
    var c := k + r.consumed;
    r.state.out == Trunc(Body(tags, enc), limit) && r.state.primed &&
    (r.state.failed <==> |Body(tags, enc)| > limit) &&
    (forall j :: k <= j < c && j <= |tags| ==> |Sent(tags, j, enc)| <= limit) &&
    (c < |tags| ==> |Sent(tags, c, enc)| > limit)
  }

  lemma {:induction false} ServeFrom(tags: seq<Tag>, k: nat, limit: nat, enc: TagInfo -> string)
    requires 1 <= k <= |tags| && |Sent(tags, k, enc)| <= limit
    ensures DrainedFrom(tags, k, limit, enc, ServeSpec(WriterState(Sent(tags, k, enc), true, true, false), limit, enc, tags[k..]))
    decreases |tags| - k
  {
    if k == |tags| {
      ServeEnd(tags, limit, enc);
    } else {
      var r := ServeSpec(WriterState(Sent(tags, k, enc), true, true, false), limit, enc, tags[k..]);
      ServeStep(tags, k, limit, enc);
      if |Sent(tags, k + 1, enc)| <= limit {
        var rest := ServeSpec(WriterState(Sent(tags, k + 1, enc), true, true, false), limit, enc, tags[k + 1..]);
        ServeFrom(tags, k + 1, limit, enc);
        DrainedCons(tags, k, limit, enc, r, rest);
      } else {
        DrainedLast(tags, k, limit, enc, r);
      }
    }
  }

  /** The drain once every record went out in full: closing adds `]}`, which
      fails exactly when the whole body does not fit. */
  lemma ServeEnd(tags: seq<Tag>, limit: nat, enc: TagInfo -> string)
    requires tags != [] && |Sent(tags, |tags|, enc)| <= limit
    ensures DrainedFrom(tags, |tags|, limit, enc,
      ServeSpec(WriterState(Sent(tags, |tags|, enc), true, true, false), limit, enc, tags[|tags|..]))
  {
    var body := Body(tags, enc);
    assert tags[..|tags|] == tags;
    assert tags[|tags|..] == [];
    if |body| > limit {
      TruncAgree(body, body, limit);
    }
  }

  /** A record that fits: what the drain does from `k + 1` records on, it
      does from `k` on with that record in front. */
  lemma DrainedCons(tags: seq<Tag>, k: nat, limit: nat, enc: TagInfo -> string, r: Served, rest: Served)
    requires 1 <= k < |tags| && |Sent(tags, k, enc)| <= limit
    requires r == Served(rest.state, rest.consumed + 1) && DrainedFrom(tags, k + 1, limit, enc, rest)
    ensures DrainedFrom(tags, k, limit, enc, r)
  {
    forall j | k <= j < k + r.consumed && j <= |tags|
      ensures |Sent(tags, j, enc)| <= limit
    {
      if j > k {
        assert k + 1 <= j < k + 1 + rest.consumed;
      }
    }
  }

  /** A record that does not fit ends the drain, with the cut body. */
  lemma DrainedLast(tags: seq<Tag>, k: nat, limit: nat, enc: TagInfo -> string, r: Served)
    requires 1 <= k < |tags| && |Sent(tags, k, enc)| <= limit < |Sent(tags, k + 1, enc)|
    requires r.consumed == 1 && r.state.out == Trunc(Body(tags, enc), limit)
    requires r.state.primed && r.state.failed && |Body(tags, enc)| > limit
    ensures DrainedFrom(tags, k, limit, enc, r)
  {
  }

  /** One record of the drain after `k >= 1` records went out in full: it
      fails, leaving the cut body, exactly when the text with it does not
      fit; otherwise the drain goes on from `k + 1` records. */
  lemma ServeStep(tags: seq<Tag>, k: nat, limit: nat, enc: TagInfo -> string)
    requires 1 <= k < |tags| && |Sent(tags, k, enc)| <= limit
    ensures var r := ServeSpec(WriterState(Sent(tags, k, enc), true, true, false), limit, enc, tags[k..]);
      var next := Sent(tags, k + 1, enc);
      if |next| > limit then
        r == Served(r.state, 1) && r.state.out == Trunc(Body(tags, enc), limit) &&
        r.state.primed && r.state.failed && |Body(tags, enc)| > limit
      else
        var rest := ServeSpec(WriterState(next, true, true, false), limit, enc, tags[k + 1..]);
        r == Served(rest.state, rest.consumed + 1)
  {
    var next := Sent(tags, k + 1, enc);
    assert tags[k..][0] == tags[k] && tags[k..][1..] == tags[k + 1..];
    NextWrite(tags, k, limit, enc);
    if |next| > limit {
      SentPrefix(tags, k + 1, enc);
      TruncAgree(next, Body(tags, enc), limit);
    }
  }

  /** Writing record `k >= 1` after the first `k` went out in full: the
      writer fails exactly when the comma and the record do not fit, leaving
      the part of the text that fits; otherwise it holds the text through
      record `k`. */
  lemma NextWrite(tags: seq<Tag>, k: nat, limit: nat, enc: TagInfo -> string)
    requires 1 <= k < |tags| && |Sent(tags, k, enc)| <= limit
    ensures var s2 := WriteSpec(WriterState(Sent(tags, k, enc), true, true, false), limit, enc, tags[k]);
      var next := Sent(tags, k + 1, enc);
      if |next| > limit then s2.out == next[..limit] && s2.primed && s2.failed
      else s2 == WriterState(next, true, true, false)
  {
    var s := WriterState(Sent(tags, k, enc), true, true, false);
    var rec := enc(ToTagInfo(tags[k]));
    var next := Sent(tags, k + 1, enc);
    SentStep(tags, k, enc);
    var s1 := WriteCommaSpec(s, limit);
    var s2 := WriteSpec(s, limit, enc, tags[k]);
    if s1.failed {
      assert s1.out == (s.out + ",")[..limit];
      assert s.out + "," <= next;
    } else if s2.failed {
      assert s2.out == (s.out + "," + rec)[..limit];
    } else {
      assert s2 == WriterState(next, true, true, false);
    }
  }

  /** The whole drain from a fresh writer: the response holds the part of
      the document that fits, the writer fails exactly when the document
      does not fit, it is primed exactly when a tag arrived, and it takes
      tags up to the first one whose write fails. */
  lemma ServeBody(tags: seq<Tag>, limit: nat, enc: TagInfo -> string)
    ensures var r := ServeSpec(WriterState([], false, false, false), limit, enc, tags);
      r.state.out == Trunc(Body(tags, enc), limit) &&
      (r.state.failed <==> |Body(tags, enc)| > limit) &&
      (r.state.primed <==> tags != []) &&
      (forall j :: 1 <= j < r.consumed ==> |Sent(tags, j, enc)| <= limit) &&
      (r.consumed < |tags| ==> |Sent(tags, r.consumed, enc)| > limit)
  {
    if tags != [] {
      var r := ServeSpec(WriterState([], false, false, false), limit, enc, tags);
      ServeFirst(tags, limit, enc);
      if |Sent(tags, 1, enc)| <= limit {
        var rest := ServeSpec(WriterState(Sent(tags, 1, enc), true, true, false), limit, enc, tags[1..]);
        ServeFrom(tags, 1, limit, enc);
        DrainedWhole(tags, limit, enc, r, rest);
      }
    }
  }

  /** The first record fits: the whole drain is what the drain from one
      record does, with that record in front. */
  lemma DrainedWhole(tags: seq<Tag>, limit: nat, enc: TagInfo -> string, r: Served, rest: Served)
    requires 1 <= |tags| && |Sent(tags, 1, enc)| <= limit
    requires r == Served(rest.state, rest.consumed + 1) && r.consumed <= |tags|
    requires DrainedFrom(tags, 1, limit, enc, rest)
    ensures r.state.out == Trunc(Body(tags, enc), limit)
    ensures r.state.failed <==> |Body(tags, enc)| > limit
    ensures r.state.primed
    ensures forall j :: 1 <= j < r.consumed ==> |Sent(tags, j, enc)| <= limit
    ensures r.consumed < |tags| ==> |Sent(tags, r.consumed, enc)| > limit
  {
  }

  /** The first record from a fresh writer: the opening text and the record
      fail exactly when they do not fit, leaving the cut body; otherwise the
      drain goes on from one record. */
  lemma ServeFirst(tags: seq<Tag>, limit: nat, enc: TagInfo -> string)
    requires tags != []
    ensures var r := ServeSpec(WriterState([], false, false, false), limit, enc, tags);
      var one := Sent(tags, 1, enc);
      if |one| > limit then
        r.consumed == 1 && r.state.out == Trunc(Body(tags, enc), limit) &&
        r.state.primed && r.state.failed && |Body(tags, enc)| > limit
      else
        var rest := ServeSpec(WriterState(one, true, true, false), limit, enc, tags[1..]);
        r == Served(rest.state, rest.consumed + 1)
  {
    var one := Sent(tags, 1, enc);
    FirstWrite(tags, limit, enc);
    if |one| > limit {
      SentPrefix(tags, 1, enc);
      TruncAgree(one, Body(tags, enc), limit);
    }
  }

  /** Priming a fresh writer and writing the first record: the writer fails
      exactly when the opening text and the record do not fit, leaving the
      part of them that fits; otherwise it holds exactly them. */
  lemma FirstWrite(tags: seq<Tag>, limit: nat, enc: TagInfo -> string)
    requires tags != []
    ensures var s2 := WriteSpec(PrimeSpec(WriterState([], false, false, false), limit), limit, enc, tags[0]);
      var one := Sent(tags, 1, enc);
      if |one| > limit then s2.out == one[..limit] && s2.primed && s2.failed
      else s2 == WriterState(one, true, true, false)
  {
    var s := WriterState([], false, false, false);
    var rec := enc(ToTagInfo(tags[0]));
    var one := Sent(tags, 1, enc);
    SentStep(tags, 0, enc);
    assert tags[..0] == [];
    var s1 := PrimeSpec(s, limit);
    var s2 := WriteSpec(s1, limit, enc, tags[0]);
    if s1.failed {
      assert s2 == s1 && s1.out == Open[..limit];
      assert Open <= one;
    } else if s2.failed {
      assert s2.out == (Open + rec)[..limit];
    } else {
      assert s2 == WriterState(one, true, true, false);
    }
  }

  /** A response that accepts everything holds the whole document. */
  lemma ServeComplete(tags: seq<Tag>, limit: nat, enc: TagInfo -> string)
    requires |Body(tags, enc)| <= limit
    ensures var r := ServeSpec(WriterState([], false, false, false), limit, enc, tags);
      r.state.out == Body(tags, enc) && !r.state.failed && r.consumed == |tags|
  {
    ServeBody(tags, limit, enc);
  }
}
