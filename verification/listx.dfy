/**
 The `-listx` tag-catalog walker of exif/listx.go.

 The catalog is a flat stream of raw tokens.  Four hand-written loops walk
 it by recursive descent: taginfo -> table -> tag -> desc.  One `Tag` record
 is built per `<tag>` element and handed to a caller-supplied handler, which
 may ask the walk to stop.

 Each loop is specified by a function over (tokens, position) that returns
 where the loop left the cursor, the error it returned and the tags it handed
 to the handler.  Class `Walker` holds the cursor and runs the loops step by
 step; each of its methods is proved equal to the matching function.
 */
module ListX {
  import opened XmlTokens

  /** The table a tag was declared in. */
  datatype TableInfo = TableInfo(name: string)

  /** One human-language description of a tag. */
  datatype Description = Description(lang: string, text: string)

  /** One tag of the catalog. */
  datatype Tag = Tag(table: TableInfo, writable: bool, typ: string, name: string, descriptions: seq<Description>)

  /** The error values the walker passes around; `NoError` is nil. */
  datatype Err = NoError | EOF | ReadError(reason: string) | ErrStop | HandlerError(reason: string)

  /** What the handler answers for one tag: nil, the stop sentinel, or another error. */
  datatype Verdict = Continue | Stop | Fail(reason: string)

  type Handler = Tag -> Verdict

  /** The error value a handler's answer stands for. */
  function VerdictErr(v: Verdict): Err {
    match v
    case Continue => NoError
    case Stop => ErrStop
    case Fail(m) => HandlerError(m)
  }

  // ---------------------------------------------------------------------
  // Records built from start elements

  /** A new tag as processTag fills it from its start element: the enclosing
      table by value, the last `name`, `type` and `writable` attributes, and
      no descriptions yet.  TagStartFields states what each field holds. */
  function TagFromStart(table: TableInfo, attrs: seq<Attr>): (r: Tag)
    ensures r.table == table && r.descriptions == []
  {
    var writable := match LastValue(attrs, "writable")
      case None => false
      case Some(v) => v != "false";
    Tag(table, writable, LastValue(attrs, "type").GetOr(""), LastValue(attrs, "name").GetOr(""), [])
  }

  /** `writable` holds exactly when the last `writable` attribute exists and
      is not the literal "false" (an absent attribute leaves Go's zero value,
      false); `name` and `type` are their last attributes, or "". */
  lemma TagStartFields(table: TableInfo, attrs: seq<Attr>)
    ensures TagFromStart(table, attrs).writable <==>
      exists i :: LastAt(attrs, "writable", i) && attrs[i].value != "false"
    ensures forall i :: LastAt(attrs, "name", i) ==> TagFromStart(table, attrs).name == attrs[i].value
    ensures Absent(attrs, "name") ==> TagFromStart(table, attrs).name == ""
    ensures forall i :: LastAt(attrs, "type", i) ==> TagFromStart(table, attrs).typ == attrs[i].value
    ensures Absent(attrs, "type") ==> TagFromStart(table, attrs).typ == ""
  {
  }

  /** A new table as processTable fills it: the FIRST `name` attribute. */
  function TableFromStart(attrs: seq<Attr>): (r: TableInfo)
    ensures forall i :: FirstAt(attrs, "name", i) ==> r.name == attrs[i].value
    ensures Absent(attrs, "name") ==> r.name == ""
  {
    TableInfo(FirstValue(attrs, "name").GetOr(""))
  }

  /** A new description as processDescription fills it: the last `lang`
      attribute and no text yet. */
  function DescFromStart(attrs: seq<Attr>): (r: Description)
    ensures r.text == ""
  {
    Description(LastValue(attrs, "lang").GetOr(""), "")
  }

  /** The language is the last `lang` attribute, or "" without one. */
  lemma DescStartLang(attrs: seq<Attr>)
    ensures forall i :: LastAt(attrs, "lang", i) ==> DescFromStart(attrs).lang == attrs[i].value
    ensures Absent(attrs, "lang") ==> DescFromStart(attrs).lang == ""
  {
  }

  // ---------------------------------------------------------------------
  // Reading

  /** What one RawToken call yields at `pos`. */
  datatype Read = Got(tok: Token, next: nat) | Failed(err: Err)

  /** Reading at the end of the stream gives EOF; reading a fault gives that
      read error.  Neither advances the cursor, so the error is sticky. */
  function ReadAt(toks: seq<Token>, pos: nat): (r: Read)
    requires pos <= |toks|
    ensures r.Got? ==> pos < |toks| && r.next == pos + 1 && r.tok == toks[pos] && !r.tok.Fault?
    ensures pos == |toks| <==> r == Failed(EOF)
    ensures pos < |toks| && toks[pos].Fault? ==> r == Failed(ReadError(toks[pos].reason))
    ensures pos < |toks| && !toks[pos].Fault? ==> r == Got(toks[pos], pos + 1)
  {
    if pos == |toks| then Failed(EOF)
    else if toks[pos].Fault? then Failed(ReadError(toks[pos].reason))
    else Got(toks[pos], pos + 1)
  }

  /** The read at `pos` fails with `err`. */
  predicate FailsAt(toks: seq<Token>, pos: nat, err: Err) {
    pos <= |toks| && ReadAt(toks, pos) == Failed(err)
  }

  // ---------------------------------------------------------------------
  // The four loops, as functions of the token stream

  datatype DescOutcome = DescOutcome(pos: nat, err: Err, desc: Description)

  /** Where a walk of one level ended, what it returned and which tags it
      handed to the handler, in call order. */
  datatype Outcome = Outcome(pos: nat, err: Err, sent: seq<Tag>)

  /** The loop of processDescription, from `pos` with `desc` filled so far:
      the last character data before `</desc>` becomes the text. */
  function DescLoop(toks: seq<Token>, pos: nat, desc: Description): (r: DescOutcome)
    requires pos <= |toks|
    ensures pos <= r.pos <= |toks|
    ensures r.err == NoError || FailsAt(toks, r.pos, r.err)
    ensures r.err == NoError ==> pos < r.pos && toks[r.pos - 1] == End("desc")
    ensures r.desc.lang == desc.lang
    decreases |toks| - pos
  {
    match ReadAt(toks, pos)
    case Failed(e) => DescOutcome(pos, e, desc)
    case Got(tk, next) =>
      match tk
      case CharData(s) => DescLoop(toks, next, desc.(text := s))
      case End(n) =>
        if n == "desc" then DescOutcome(next, NoError, desc) else DescLoop(toks, next, desc)
      case _ => DescLoop(toks, next, desc)
  }

  /** The loop of processTag, from `pos` with `tag` filled so far.  A closed
      `<desc>` appends its description; the error of an unclosed one is
      dropped and the loop reads on.  At `</tag>` the handler gets the tag. */
  function TagLoop(toks: seq<Token>, pos: nat, tag: Tag, h: Handler): (r: Outcome)
    requires pos <= |toks|
    ensures pos <= r.pos <= |toks|
    ensures |r.sent| <= 1
    ensures r.sent == [] ==> FailsAt(toks, r.pos, r.err)
    ensures r.sent != [] ==> r.err == VerdictErr(h(r.sent[0]))
    ensures r.sent != [] ==>
      var t := r.sent[0];
      t.table == tag.table && t.writable == tag.writable && t.typ == tag.typ && t.name == tag.name &&
      tag.descriptions <= t.descriptions
    decreases |toks| - pos
  {
    match ReadAt(toks, pos)
    case Failed(e) => Outcome(pos, e, [])
    case Got(tk, next) =>
      match tk
      case Start(n, attrs) =>
        if n == "desc" then
          var d := DescLoop(toks, next, DescFromStart(attrs));
          TagLoop(toks, d.pos, if d.err == NoError then tag.(descriptions := tag.descriptions + [d.desc]) else tag, h)
        else TagLoop(toks, next, tag, h)
      case End(n) =>
        if n == "tag" then Outcome(next, VerdictErr(h(tag)), [tag]) else TagLoop(toks, next, tag, h)
      case _ => TagLoop(toks, next, tag, h)
  }

  /** The tags were handed over in order and every one but the last was
      answered with nil; the walk returned nil, a read error, or the non-nil
      answer to the last tag, which it passed up as-is. */
  predicate Propagated(toks: seq<Token>, h: Handler, r: Outcome) {
    (forall i :: 0 <= i < |r.sent| - 1 ==> h(r.sent[i]) == Continue) &&
    (r.sent != [] && h(r.sent[|r.sent| - 1]) != Continue ==> r.err == VerdictErr(h(r.sent[|r.sent| - 1]))) &&
    (r.err == NoError || FailsAt(toks, r.pos, r.err) ||
      (r.sent != [] && h(r.sent[|r.sent| - 1]) != Continue))
  }

  /** The outcome of a walk whose first part handed over `sent`. */
  function Prepend(sent: seq<Tag>, o: Outcome): Outcome {
    Outcome(o.pos, o.err, sent + o.sent)
  }

  lemma PrependTwice(a: seq<Tag>, b: seq<Tag>, o: Outcome)
    ensures Prepend(a, Prepend(b, o)) == Prepend(a + b, o)
  {
    assert a + (b + o.sent) == (a + b) + o.sent;
  }

  function PrependWalk(sent: seq<Tag>, w: WalkOutcome): WalkOutcome {
    WalkOutcome(w.inner, sent + w.sent)
  }

  lemma PrependWalkTwice(a: seq<Tag>, b: seq<Tag>, w: WalkOutcome)
    ensures PrependWalk(a, PrependWalk(b, w)) == PrependWalk(a + b, w)
  {
    assert a + (b + w.sent) == (a + b) + w.sent;
  }

  /** Two walks in a row, the first of which returned nil, propagate like one. */
  lemma Chain(toks: seq<Token>, h: Handler, a: Outcome, b: Outcome)
    requires a.err == NoError && Propagated(toks, h, a) && Propagated(toks, h, b)
    ensures Propagated(toks, h, Prepend(a.sent, b))
  {
    var s := a.sent + b.sent;
    forall i | 0 <= i < |s| - 1 ensures h(s[i]) == Continue {
      if i < |a.sent| - 1 {
      } else if i == |a.sent| - 1 {
        assert s[i] == a.sent[|a.sent| - 1];
      } else {
        assert s[i] == b.sent[i - |a.sent|];
      }
    }
    if b.sent != [] {
      assert s[|s| - 1] == b.sent[|b.sent| - 1];
    } else {
      assert s == a.sent;
    }
  }

  /** The loop of processTable: each `<tag>` start becomes a tag of this
      table; the first non-nil result ends the table. */
  function TableLoop(toks: seq<Token>, pos: nat, table: TableInfo, h: Handler): (r: Outcome)
    requires pos <= |toks|
    ensures pos <= r.pos <= |toks|
    ensures Propagated(toks, h, r)
    ensures forall t :: t in r.sent ==> t.table == table
    decreases |toks| - pos
  {
    match ReadAt(toks, pos)
    case Failed(e) => Outcome(pos, e, [])
    case Got(tk, next) =>
      match tk
      case Start(n, attrs) =>
        if n == "tag" then
          var o := TagLoop(toks, next, TagFromStart(table, attrs), h);
          if o.err != NoError then o
          else
            var rest := TableLoop(toks, o.pos, table, h);
            Chain(toks, h, o, rest);
            Prepend(o.sent, rest)
        else TableLoop(toks, next, table, h)
      case End(n) =>
        if n == "table" then Outcome(next, NoError, []) else TableLoop(toks, next, table, h)
      case _ => TableLoop(toks, next, table, h)
  }

  /** The loop of processTagInfo: each `<table>` start opens a table named
      by its first `name` attribute. */
  function InfoLoop(toks: seq<Token>, pos: nat, h: Handler): (r: Outcome)
    requires pos <= |toks|
    ensures pos <= r.pos <= |toks|
    ensures Propagated(toks, h, r)
    decreases |toks| - pos
  {
    match ReadAt(toks, pos)
    case Failed(e) => Outcome(pos, e, [])
    case Got(tk, next) =>
      match tk
      case Start(n, attrs) =>
        if n == "table" then
          var o := TableLoop(toks, next, TableFromStart(attrs), h);
          if o.err != NoError then o
          else
            var rest := InfoLoop(toks, o.pos, h);
            Chain(toks, h, o, rest);
            Prepend(o.sent, rest)
        else InfoLoop(toks, next, h)
      case End(n) =>
        if n == "taginfo" then Outcome(next, NoError, []) else InfoLoop(toks, next, h)
      case _ => InfoLoop(toks, next, h)
  }

  /** What the top-level loop of WalkTags leaves behind: the value of its
      loop-local error in the last round, and the tags handed over. */
  datatype WalkOutcome = WalkOutcome(inner: Err, sent: seq<Tag>)

  /** The top-level loop of WalkTags.  A failed read ends it (EOF counts as
      nil); ErrStop from a `<taginfo>` ends it with nil; any other result of
      a `<taginfo>` only ends the round, and the loop reads on. */
  function WalkLoop(toks: seq<Token>, pos: nat, h: Handler): (r: WalkOutcome)
    requires pos <= |toks|
    ensures r.inner == NoError || r.inner.ReadError?
    ensures r.inner.ReadError? ==> exists i :: pos <= i < |toks| && toks[i] == Fault(r.inner.reason)
    decreases |toks| - pos
  {
    match ReadAt(toks, pos)
    case Failed(e) => WalkOutcome(if e == EOF then NoError else e, [])
    case Got(tk, next) =>
      if tk.Start? && tk.name == "taginfo" then
        var o := InfoLoop(toks, next, h);
        if o.err == ErrStop then WalkOutcome(NoError, o.sent)
        else
          var rest := WalkLoop(toks, o.pos, h);
          WalkOutcome(rest.inner, o.sent + rest.sent)
      else WalkLoop(toks, next, h)
  }

  /** No tag before the last one in `sent` was answered with Stop. */
  predicate StopOnlyLast(sent: seq<Tag>, h: Handler) {
    forall i :: 0 <= i < |sent| - 1 ==> h(sent[i]) != Stop
  }

  /** A tag the handler answers with Stop is the last one it gets: the stop
      travels up through every level and ends the walk. */
  lemma {:induction false} StopIsLast(toks: seq<Token>, pos: nat, h: Handler)
    requires pos <= |toks|
    ensures StopOnlyLast(WalkLoop(toks, pos, h).sent, h)
    decreases |toks| - pos
  {
    match ReadAt(toks, pos)
    case Failed(_) =>
    case Got(tk, next) =>
      if tk.Start? && tk.name == "taginfo" {
        var o := InfoLoop(toks, next, h);
        assert Propagated(toks, h, o);
        if o.err == ErrStop {
          assert WalkLoop(toks, pos, h).sent == o.sent;
        } else {
          var rest := WalkLoop(toks, o.pos, h);
          StopIsLast(toks, o.pos, h);
          assert StopOnlyLast(rest.sent, h);
          var s := o.sent + rest.sent;
          assert WalkLoop(toks, pos, h).sent == s;
          forall i | 0 <= i < |s| - 1 ensures h(s[i]) != Stop {
            if i < |o.sent| - 1 {
              assert s[i] == o.sent[i];
            } else if i == |o.sent| - 1 {
              assert s[i] == o.sent[i];
              assert h(o.sent[i]) != Continue ==> o.err == VerdictErr(h(o.sent[i]));
            } else {
              assert s[i] == rest.sent[i - |o.sent|];
            }
          }
        }
      } else {
        assert WalkLoop(toks, pos, h) == WalkLoop(toks, next, h);
        StopIsLast(toks, next, h);
      }
  }

  // ---------------------------------------------------------------------
  // The attribute loops at the head of processDescription, processTag and
  // processTable

  /** Scans the attributes of a `<desc>` start; every `lang` overwrites. */
  method NewDescription(start: seq<Attr>) returns (desc: Description)
    ensures desc == DescFromStart(start)
  {
    desc := Description("", "");
    for i := 0 to |start|
      invariant desc == DescFromStart(start[..i])
    {
      assert start[..i + 1][..i] == start[..i];
      if start[i].name == "lang" {
        desc := desc.(lang := start[i].value);
      }
    }
    assert start[..|start|] == start;
  }

  /** Scans the attributes of a `<tag>` start; every `name`, `type` and
      `writable` overwrites, and `writable` is true unless its value is the
      literal "false". */
  method NewTag(table: TableInfo, start: seq<Attr>) returns (tag: Tag)
    ensures tag == TagFromStart(table, start)
  {
    tag := Tag(table, false, "", "", []);
    for i := 0 to |start|
      invariant tag == TagFromStart(table, start[..i])
    {
      assert start[..i + 1][..i] == start[..i];
      match start[i].name
      case "name" => tag := tag.(name := start[i].value);
      case "type" => tag := tag.(typ := start[i].value);
      case "writable" => tag := tag.(writable := start[i].value != "false");
      case _ =>
    }
    assert start[..|start|] == start;
  }

  /** Scans the attributes of a `<table>` start up to the first `name`. */
  method NewTable(start: seq<Attr>) returns (table: TableInfo)
    ensures table == TableFromStart(start)
  {
    table := TableInfo("");
    var i := 0;
    while i < |start|
      invariant 0 <= i <= |start|
      invariant Absent(start[..i], "name")
      invariant table == TableInfo("")
    {
      if start[i].name == "name" {
        table := TableInfo(start[i].value);
        assert FirstAt(start, "name", i);
        break;
      }
      i := i + 1;
    }
  }

  // ---------------------------------------------------------------------
  // The walker itself: a cursor over the token stream and the handler

  /** The decoder cursor and the handler that WalkTags threads through the
      four process functions.  `delivered` records every call of the handler,
      in order: the handler's only observable effect on the walk. */
  class Walker {
    const toks: seq<Token>
    const handler: Handler
    var pos: nat
    var delivered: seq<Tag>

    constructor (toks: seq<Token>, handler: Handler)
      ensures this.toks == toks && this.handler == handler
      ensures pos == 0 && delivered == []
    {
      this.toks := toks;
      this.handler := handler;
      pos := 0;
      delivered := [];
    }

    /** dec.RawToken: the next token, or the sticky EOF / read error. */
    method RawToken() returns (tk: Option<Token>, err: Err)
      requires pos <= |toks|
      modifies this`pos
      ensures pos <= |toks|
      ensures match ReadAt(toks, old(pos))
        case Got(t, next) => tk == Some(t) && err == NoError && pos == next
        case Failed(e) => tk == None && err == e && pos == old(pos)
    {
      if pos == |toks| {
        return None, EOF;
      }
      if toks[pos].Fault? {
        return None, ReadError(toks[pos].reason);
      }
      tk, err := Some(toks[pos]), NoError;
      pos := pos + 1;
    }

    /** Hands one finished tag to the handler. */
    method Handle(tag: Tag) returns (err: Err)
      modifies this`delivered
      ensures delivered == old(delivered) + [tag]
      ensures err == VerdictErr(handler(tag))
    {
      delivered := delivered + [tag];
      err := VerdictErr(handler(tag));
    }

    /** processDescription: fills a description from its start element and
        the tokens up to `</desc>`, and appends it to `tag` only when the
        element closed.  `tag` comes back through `result`, as the pointer
        argument does in the source. */
    method ProcessDescription(start: seq<Attr>, tag: Tag) returns (err: Err, result: Tag)
      requires pos <= |toks|
      modifies this`pos
      ensures pos <= |toks|
      ensures var d := DescLoop(toks, old(pos), DescFromStart(start));
        pos == d.pos && err == d.err &&
        result == if d.err == NoError then tag.(descriptions := tag.descriptions + [d.desc]) else tag
    {
      var desc := NewDescription(start);
      while true
        invariant old(pos) <= pos <= |toks|
        invariant DescLoop(toks, old(pos), DescFromStart(start)) == DescLoop(toks, pos, desc)
        decreases |toks| - pos
      {
        ghost var at := pos;
        var tk, e := RawToken();
        if e != NoError {
          assert DescLoop(toks, at, desc) == DescOutcome(at, e, desc);
          return e, tag;
        }
        assert ReadAt(toks, at) == Got(tk.value, pos);
        match tk.value
        case CharData(text) =>
          desc := desc.(text := text);
        case End(n) =>
          if n == "desc" {
            assert DescLoop(toks, at, desc) == DescOutcome(pos, NoError, desc);
            return NoError, tag.(descriptions := tag.descriptions + [desc]);
          }
        case _ =>
      }
    }

    /** processTag: fills a tag from its start element (the enclosing table
        by value), collects its descriptions and hands it to the handler at
        `</tag>`, returning the handler's answer. */
    method ProcessTag(table: TableInfo, start: seq<Attr>) returns (err: Err)
      requires pos <= |toks|
      modifies this`pos, this`delivered
      ensures pos <= |toks|
      ensures var o := TagLoop(toks, old(pos), TagFromStart(table, start), handler);
        pos == o.pos && err == o.err && delivered == old(delivered) + o.sent
    {
      var tag := NewTag(table, start);
      while true
        invariant old(pos) <= pos <= |toks|
        invariant delivered == old(delivered)
        invariant TagLoop(toks, old(pos), TagFromStart(table, start), handler) == TagLoop(toks, pos, tag, handler)
        decreases |toks| - pos
      {
        var tk, e := RawToken();
        if e != NoError {
          return e;
        }
        match tk.value
        case Start(n, attrs) =>
          if n == "desc" {
            // the description's own error is overwritten by the next read
            var dropped, updated := ProcessDescription(attrs, tag);
            tag := updated;
          }
        case End(n) =>
          if n == "tag" {
            err := Handle(tag);
            return;
          }
        case _ =>
      }
    }

    /** processTable: names the table after the first `name` attribute and
        walks its `<tag>` elements until `</table>` or the first non-nil
        result. */
    method ProcessTable(start: seq<Attr>) returns (err: Err)
      requires pos <= |toks|
      modifies this`pos, this`delivered
      ensures pos <= |toks|
      ensures var o := TableLoop(toks, old(pos), TableFromStart(start), handler);
        pos == o.pos && err == o.err && delivered == old(delivered) + o.sent
    {
      var table := NewTable(start);
      while true
        invariant old(pos) <= pos <= |toks|
        invariant Prepend(old(delivered), TableLoop(toks, old(pos), table, handler)) ==
                  Prepend(delivered, TableLoop(toks, pos, table, handler))
        decreases |toks| - pos
      {
        ghost var here := pos;
        var tk, e := RawToken();
        if e != NoError {
          assert TableLoop(toks, here, table, handler) == Outcome(here, e, []);
          assert delivered + [] == delivered;
          return e;
        }
        assert ReadAt(toks, here) == Got(tk.value, pos);
        var t := tk.value;
        if t.Start? && t.name == "tag" {
          ghost var o := TagLoop(toks, pos, TagFromStart(table, t.attrs), handler);
          ghost var before := delivered;
          err := ProcessTag(table, t.attrs);
          if err != NoError {
            assert TableLoop(toks, here, table, handler) == o;
            return;
          }
          assert TableLoop(toks, here, table, handler) == Prepend(o.sent, TableLoop(toks, pos, table, handler));
          PrependTwice(before, o.sent, TableLoop(toks, pos, table, handler));
        } else if t.End? && t.name == "table" {
          assert TableLoop(toks, here, table, handler) == Outcome(pos, NoError, []);
          assert delivered + [] == delivered;
          return NoError;
        } else {
          assert TableLoop(toks, here, table, handler) == TableLoop(toks, pos, table, handler);
        }
      }
    }

    /** processTagInfo: walks the `<table>` elements until `</taginfo>` or
        the first non-nil result. */
    method ProcessTagInfo() returns (err: Err)
      requires pos <= |toks|
      modifies this`pos, this`delivered
      ensures pos <= |toks|
      ensures var o := InfoLoop(toks, old(pos), handler);
        pos == o.pos && err == o.err && delivered == old(delivered) + o.sent
    {
      while true
        invariant old(pos) <= pos <= |toks|
        invariant Prepend(old(delivered), InfoLoop(toks, old(pos), handler)) ==
                  Prepend(delivered, InfoLoop(toks, pos, handler))
        decreases |toks| - pos
      {
        ghost var here := pos;
        var tk, e := RawToken();
        if e != NoError {
          assert InfoLoop(toks, here, handler) == Outcome(here, e, []);
          assert delivered + [] == delivered;
          return e;
        }
        assert ReadAt(toks, here) == Got(tk.value, pos);
        var t := tk.value;
        if t.End? && t.name == "taginfo" {
          assert InfoLoop(toks, here, handler) == Outcome(pos, NoError, []);
          assert delivered + [] == delivered;
          return NoError;
        } else if t.Start? && t.name == "table" {
          ghost var o := TableLoop(toks, pos, TableFromStart(t.attrs), handler);
          ghost var before := delivered;
          err := ProcessTable(t.attrs);
          if err != NoError {
            assert InfoLoop(toks, here, handler) == o;
            return;
          }
          assert InfoLoop(toks, here, handler) == Prepend(o.sent, InfoLoop(toks, pos, handler));
          PrependTwice(before, o.sent, InfoLoop(toks, pos, handler));
        } else {
          assert InfoLoop(toks, here, handler) == InfoLoop(toks, pos, handler);
        }
      }
    }

    /** The token loop of WalkTags (the external process is not modelled).
        `err` is what WalkTags returns: the function-level error, which no
        round of the loop assigns, because each round declares its own.
        `inner` is that round-local error as the last round left it. */
    method WalkTags() returns (err: Err, inner: Err)
      requires pos <= |toks|
      modifies this`pos, this`delivered
      ensures err == NoError
      ensures var w := WalkLoop(toks, old(pos), handler);
        inner == w.inner && delivered == old(delivered) + w.sent
    {
      err := NoError;
      inner := NoError;
      var streamCompleted := false;
      while !streamCompleted
        invariant pos <= |toks|
        invariant !streamCompleted ==>
          PrependWalk(old(delivered), WalkLoop(toks, old(pos), handler)) ==
          PrependWalk(delivered, WalkLoop(toks, pos, handler))
        invariant streamCompleted ==>
          PrependWalk(old(delivered), WalkLoop(toks, old(pos), handler)) == WalkOutcome(inner, delivered)
        decreases if streamCompleted then 0 else 1, |toks| - pos
      {
        ghost var here := pos;
        ghost var before := delivered;
        var tk, e := RawToken();
        var roundErr := e;
        if e != NoError {
          streamCompleted := true;
          if e == EOF {
            roundErr := NoError;
          }
          assert WalkLoop(toks, here, handler) == WalkOutcome(roundErr, []);
          assert delivered + [] == delivered;
        }
        if tk.Some? && tk.value.Start? && tk.value.name == "taginfo" {
          assert ReadAt(toks, here) == Got(tk.value, pos);
          ghost var o := InfoLoop(toks, pos, handler);
          roundErr := ProcessTagInfo();
          if roundErr == ErrStop {
            assert WalkLoop(toks, here, handler) == WalkOutcome(NoError, o.sent);
          } else {
            assert WalkLoop(toks, here, handler) == PrependWalk(o.sent, WalkLoop(toks, pos, handler));
            PrependWalkTwice(before, o.sent, WalkLoop(toks, pos, handler));
          }
        } else if tk.Some? {
          assert ReadAt(toks, here) == Got(tk.value, pos);
          assert WalkLoop(toks, here, handler) == WalkLoop(toks, pos, handler);
        }
        if roundErr == ErrStop {
          roundErr := NoError;
          streamCompleted := true;
        }
        inner := roundErr;
      }
    }
  }
}
