/**
 The `/tags` response writer of internal/api/api.go.

 Tags arrive one at a time; each becomes a `TagInfo` record that the JSON
 encoder writes to the response.  `tagWriter` frames the records as one JSON
 document: `{"tags": [` before the first record, a comma between records and
 `]}` at the end.  Its error field is sticky: once a write fails, nothing
 more is written.

 The response is a `Sink` that accepts text up to a fixed length and fails
 from there on (a write that crosses the limit stores the part that fits).
 The encoder is a parameter, `enc`, mapping a record to its JSON text.
 */
module Api {
  import opened XmlTokens
  import opened ListX

  /** The record written for one tag. */
  datatype TagInfo = TagInfo(writable: bool, path: string, group: string, description: map<string, string>, typ: string)

  // ---------------------------------------------------------------------
  // descriptionsToMap and the Tag -> TagInfo projection

  /** The map descriptionsToMap fills: one entry per language, a later
      description overwriting an earlier one with the same language. */
  function DescMap(d: seq<Description>): (r: map<string, string>)
    ensures d != [] ==> d[|d| - 1].lang in r && r[d[|d| - 1].lang] == d[|d| - 1].text
  {
    if d == [] then map[] else DescMap(d[..|d| - 1])[d[|d| - 1].lang := d[|d| - 1].text]
  }

  /** The languages of `d` are those of all but its last description, plus
      the last one's. */
  lemma LangsSnoc(d: seq<Description>)
    requires d != []
    ensures Langs(d) == Langs(d[..|d| - 1]) + {d[|d| - 1].lang}
  {
    var n := |d| - 1;
    var front := d[..n];
    forall x | x in Langs(d)
      ensures x in Langs(front) + {d[n].lang}
    {
      var i :| 0 <= i < |d| && d[i].lang == x;
      if i < n {
        assert front[i] == d[i];
      }
    }
    forall x | x in Langs(front)
      ensures x in Langs(d)
    {
      var i :| 0 <= i < n && front[i].lang == x;
      assert d[i] == front[i];
    }
  }

  /** Description `i` is the last one in language `lang`. */
  predicate LastInLang(d: seq<Description>, lang: string, i: int) {
    0 <= i < |d| && d[i].lang == lang && forall j :: i < j < |d| ==> d[j].lang != lang
  }

  /** The languages of the descriptions. */
  function Langs(d: seq<Description>): set<string> {
    set i | 0 <= i < |d| :: d[i].lang
  }

  /** The keys are exactly the languages present, and each maps to the text
      of the last description in that language. */
  lemma DescMapMeaning(d: seq<Description>)
    ensures DescMap(d).Keys == Langs(d)
    ensures forall lang :: lang in DescMap(d) ==>
      exists i :: LastInLang(d, lang, i) && DescMap(d)[lang] == d[i].text
  {
    DescMapKeys(d);
    DescMapValues(d);
  }

  lemma {:induction false} DescMapKeys(d: seq<Description>)
    ensures DescMap(d).Keys == Langs(d)
    decreases |d|
  {
    if d != [] {
      DescMapKeys(d[..|d| - 1]);
      LangsSnoc(d);
    }
  }

  lemma {:induction false} DescMapValues(d: seq<Description>)
    ensures forall lang :: lang in DescMap(d) ==>
      exists i :: LastInLang(d, lang, i) && DescMap(d)[lang] == d[i].text
    decreases |d|
  {
    if d != [] {
      var n := |d| - 1;
      var front := d[..n];
      DescMapValues(front);
      var m := DescMap(d);
      var mf := DescMap(front);
      assert m == mf[d[n].lang := d[n].text];
      forall lang | lang in m
        ensures exists i :: LastInLang(d, lang, i) && m[lang] == d[i].text
      {
        if lang == d[n].lang {
          assert LastInLang(d, lang, n);
        } else {
          assert lang in mf && m[lang] == mf[lang];
          var i :| LastInLang(front, lang, i) && mf[lang] == front[i].text;
          assert d[i] == front[i];
          assert LastInLang(d, lang, i);
        }
      }
    }
  }

  /** The record for a tag: `path` is "<table>:<name>", `group` the table. */
  function ToTagInfo(t: Tag): TagInfo {
    TagInfo(t.writable, t.table.name + ":" + t.name, t.table.name, DescMap(t.descriptions), t.typ)
  }

  /** The record keeps the tag's writability and type, groups it under its
      table, and describes it in exactly the languages of its descriptions,
      each by the last description in that language. */
  lemma ToTagInfoMeaning(t: Tag)
    ensures var r := ToTagInfo(t);
      r.writable == t.writable && r.typ == t.typ && r.group == t.table.name &&
      r.path == t.table.name + ":" + t.name &&
      r.description.Keys == Langs(t.descriptions) &&
      forall lang :: lang in r.description ==>
        exists i :: LastInLang(t.descriptions, lang, i) && r.description[lang] == t.descriptions[i].text
  {
    DescMapMeaning(t.descriptions);
  }

  /** Splits a path at its last ':', so that a table name such as
      `Exif::Main` stays whole; None when there is no ':'. */
  function SplitPath(p: string): (r: Option<(string, string)>)
    ensures r.Some? ==> p == r.value.0 + ":" + r.value.1 && ':' !in r.value.1
    ensures r.None? ==> ':' !in p
  {
    if p == [] then None
    else if p[|p| - 1] == ':' then Some((p[..|p| - 1], []))
    else
      match SplitPath(p[..|p| - 1])
      case None => None
      case Some(parts) => Some((parts.0, parts.1 + [p[|p| - 1]]))
  }

  /** For a tag name without ':', the path splits back into the table
      (which is also the group) and the tag name, whatever ':'s the table
      name holds. */
  lemma {:induction false} PathRoundTrip(t: Tag)
    requires ':' !in t.name
    ensures SplitPath(ToTagInfo(t).path) == Some((ToTagInfo(t).group, t.name))
  {
    SplitLast(t.table.name, t.name);
  }

  lemma {:induction false} SplitLast(a: string, b: string)
    requires ':' !in b
    ensures SplitPath(a + ":" + b) == Some((a, b))
    decreases |b|
  {
    var p := a + ":" + b;
    if b == [] {
      assert p[..|p| - 1] == a;
    } else {
      var b' := b[..|b| - 1];
      assert p[..|p| - 1] == a + ":" + b';
      SplitLast(a, b');
      assert b' + [b[|b| - 1]] == b;
    }
  }

  /** descriptionsToMap: the loop over the descriptions. */
  method DescriptionsToMap(d: seq<Description>) returns (m: map<string, string>)
    ensures m == DescMap(d)
  {
    m := map[];
    for i := 0 to |d|
      invariant m == DescMap(d[..i])
    {
      assert d[..i + 1][..i] == d[..i];
      m := m[d[i].lang := d[i].text];
    }
    assert d[..|d|] == d;
  }

  // ---------------------------------------------------------------------
  // The response

  datatype PutResult = PutResult(out: string, ok: bool)

  /** Writing `s` to a response holding `out` that accepts `limit`
      characters: whatever fits is stored; the write succeeds exactly when
      all of it fits. */
  function Put(out: string, limit: nat, s: string): (r: PutResult)
    requires |out| <= limit
    ensures out <= r.out && r.out <= out + s && |r.out| <= limit
    ensures r.ok <==> r.out == out + s
    ensures !r.ok ==> |r.out| == limit
  {
    if |out| + |s| <= limit then PutResult(out + s, true) else PutResult((out + s)[..limit], false)
  }

  class Sink {
    var out: string
    const limit: nat

    predicate Valid()
      reads this
    {
      |out| <= limit
    }

    constructor(limit: nat)
      ensures Valid() && out == [] && this.limit == limit
    {
      out := [];
      this.limit := limit;
    }

    method Write(s: string) returns (ok: bool)
      requires Valid()
      modifies this`out
      ensures Valid()
      ensures PutResult(out, ok) == Put(old(out), limit, s)
    {
      var room := limit - |out|;
      if |s| <= room {
        out := out + s;
        ok := true;
      } else {
        out := out + s[..room];
        ok := false;
        assert out == (old(out) + s)[..limit];
      }
    }
  }

  // ---------------------------------------------------------------------
  // tagWriter

  const Open: string := "{\"tags\": ["
  const Close: string := "]}"

  /** The writer's fields and the response text; `failed` is a non-nil error. */
  datatype WriterState = WriterState(out: string, primed: bool, putComma: bool, failed: bool)

  predicate Fits(s: WriterState, limit: nat) {
    |s.out| <= limit
  }

  /** Puts `text` and records whether it failed. */
  function Emit(s: WriterState, limit: nat, text: string): (r: WriterState)
    requires Fits(s, limit)
    ensures Fits(r, limit)
  {
    var p := Put(s.out, limit, text);
    s.(out := p.out, failed := !p.ok)
  }

  /** writeComma: after a failure nothing; otherwise a comma. */
  function WriteCommaSpec(s: WriterState, limit: nat): (r: WriterState)
    requires Fits(s, limit)
    ensures Fits(r, limit)
    ensures s.out <= r.out && r.primed == s.primed && r.putComma == s.putComma
    ensures s.failed ==> r == s
    ensures !r.failed ==> r.out == s.out + ","
  {
    if s.failed then s else Emit(s, limit, ",")
  }

  /** write: after a failure nothing; otherwise a comma if one is due, then
      the record, after which a comma is due whether the record failed or
      not. */
  function WriteSpec(s: WriterState, limit: nat, enc: TagInfo -> string, t: Tag): (r: WriterState)
    requires Fits(s, limit)
    ensures Fits(r, limit)
    ensures s.out <= r.out && r.primed == s.primed
    ensures s.failed ==> r == s
    ensures !s.failed ==> r.putComma
    ensures !r.failed ==>
      r.out == s.out + (if s.putComma then "," else "") + enc(ToTagInfo(t))
  {
    if s.failed then s
    else
      var s1 := if s.putComma then WriteCommaSpec(s, limit) else s;
      if s1.failed then s1
      else Emit(s1, limit, enc(ToTagInfo(t))).(putComma := true)
  }

  /** close: after a failure nothing; otherwise the closing brackets. */
  function CloseSpec(s: WriterState, limit: nat): (r: WriterState)
    requires Fits(s, limit)
    ensures Fits(r, limit)
    ensures s.out <= r.out && r.primed == s.primed && r.putComma == s.putComma
    ensures s.failed ==> r == s
    ensures !r.failed ==> r.out == s.out + Close
  {
    if s.failed then s else Emit(s, limit, Close)
  }

  /** prime: writes the opening text whatever the error, replaces the error
      with the result of that write, and marks the writer primed. */
  function PrimeSpec(s: WriterState, limit: nat): (r: WriterState)
    requires Fits(s, limit)
    ensures Fits(r, limit)
    ensures s.out <= r.out && r.primed && r.putComma == s.putComma
    ensures !r.failed ==> r.out == s.out + Open
  {
    Emit(s, limit, Open).(primed := true)
  }

  class TagWriter {
    const sink: Sink
    const enc: TagInfo -> string
    var primed: bool
    var putComma: bool
    var failed: bool

    function State(): WriterState
      reads this, sink
    {
      WriterState(sink.out, primed, putComma, failed)
    }

    predicate Valid()
      reads this, sink
    {
      sink.Valid()
    }

    constructor(sink: Sink, enc: TagInfo -> string)
      requires sink.Valid()
      ensures Valid() && this.sink == sink && this.enc == enc
      ensures State() == WriterState(sink.out, false, false, false)
    {
      this.sink := sink;
      this.enc := enc;
      primed := false;
      putComma := false;
      failed := false;
    }

    method WriteComma()
      requires Valid()
      modifies this, sink
      ensures Valid()
      ensures State() == WriteCommaSpec(old(State()), sink.limit)
    {
      if failed {
        return;
      }
      var ok := sink.Write(",");
      failed := !ok;
    }

    method Write(t: Tag)
      requires Valid()
      modifies this, sink
      ensures Valid()
      ensures State() == WriteSpec(old(State()), sink.limit, enc, t)
    {
      if failed {
        return;
      }
      if putComma {
        WriteComma();
      }
      if failed {
        return;
      }
      var description := DescriptionsToMap(t.descriptions);
      var info := TagInfo(t.writable, t.table.name + ":" + t.name, t.table.name, description, t.typ);
      var ok := sink.Write(enc(info));
      failed := !ok;
      putComma := true;
    }

    method CloseWriter()
      requires Valid()
      modifies this, sink
      ensures Valid()
      ensures State() == CloseSpec(old(State()), sink.limit)
    {
      if failed {
        return;
      }
      var ok := sink.Write(Close);
      failed := !ok;
    }

    method Prime()
      requires Valid()
      modifies this, sink
      ensures Valid()
      ensures State() == PrimeSpec(old(State()), sink.limit)
    {
      var ok := sink.Write(Open);
      failed := !ok;
      primed := true;
    }
  }

  // ---------------------------------------------------------------------
  // The drain loop of ServeHTTP

  /** The writer after the drain, and how many tags it took from the queue. */
  datatype Served = Served(state: WriterState, consumed: nat)

  /** The drain loop over the tags in the order the walk produced them: when
      the queue is closed, close the document; otherwise prime on the first
      tag, write the tag, and stop at the first failure. */
  function ServeSpec(s: WriterState, limit: nat, enc: TagInfo -> string, tags: seq<Tag>): (r: Served)
    requires Fits(s, limit)
    ensures Fits(r.state, limit)
    ensures r.consumed <= |tags| && (tags != [] ==> 1 <= r.consumed)
    ensures r.consumed < |tags| ==> r.state.failed
    ensures s.out <= r.state.out
    decreases |tags|
  {
    if tags == [] then Served(CloseSpec(s, limit), 0)
    else
      var s1 := if s.primed then s else PrimeSpec(s, limit);
      var s2 := WriteSpec(s1, limit, enc, tags[0]);
      if s2.failed then Served(s2, 1)
      else
        var rest := ServeSpec(s2, limit, enc, tags[1..]);
        Served(rest.state, rest.consumed + 1)
  }

  /** The drain loop: `tags` stands for the queue, which is closed after its
      last element. */
  method Serve(tw: TagWriter, tags: seq<Tag>) returns (consumed: nat)
    requires tw.Valid()
    modifies tw, tw.sink
    ensures tw.Valid()
    ensures Served(tw.State(), consumed) == ServeSpec(old(tw.State()), tw.sink.limit, tw.enc, tags)
  {
    var i := 0;
    while true
      invariant i <= |tags| && tw.Valid()
      invariant var r := ServeSpec(tw.State(), tw.sink.limit, tw.enc, tags[i..]);
        ServeSpec(old(tw.State()), tw.sink.limit, tw.enc, tags) == Served(r.state, r.consumed + i)
      decreases |tags| - i
    {
      if i == |tags| {
        tw.CloseWriter();
        return i;
      }
      assert tags[i..][1..] == tags[i + 1..];
      if !tw.primed {
        tw.Prime();
      }
      tw.Write(tags[i]);
      i := i + 1;
      if tw.failed {
        return i;
      }
    }
  }
}
