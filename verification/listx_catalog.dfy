/**
 What the `-listx` walk delivers for a well-formed tag catalog.

 A catalog is a `<taginfo>` element holding `<table>` elements, each holding
 `<tag>` elements, each holding `<desc>` elements.  Before, between and after
 the elements stands filler the loops read past: the XML declaration,
 comments, whitespace, and elements the loop at that level ignores, such as
 a table's own `<desc>`.  `CatalogTokens` writes a catalog out as the token
 stream a decoder would produce, and `CatalogTags` says which tag records
 the catalog declares.  The main theorem: the walk hands the handler the declared tags in
 document order, up to and including the first one the handler does not
 answer with nil.
 */
module ListXCatalog {
  import opened XmlTokens
  import opened ListX
  import opened ListXMachine

  // ---------------------------------------------------------------------
  // Filler: what may stand between the elements of a catalog

  /** The loops that read past tokens they do not act on: the document
      loop, and those of a `<taginfo>`, a `<table>` and a `<tag>`. */
  datatype Level = DocLevel | InfoLevel | TableLevel | TagLevel

  /** A token the loop at `lv` reads past: no read error, no `<taginfo>`
      start (a catalog has one), and nothing that opens or closes an element
      that loop acts on.  Whitespace, comments, the XML declaration and, in a
      table, a `<desc>` element of the table itself are all inert. */
  predicate Inert(lv: Level, tk: Token) {
    !tk.Fault? && !(tk.Start? && tk.name == "taginfo") &&
    match lv
    case DocLevel => true
    case InfoLevel => !(tk.Start? && tk.name == "table") && !(tk.End? && tk.name == "taginfo")
    case TableLevel => !(tk.Start? && tk.name == "tag") && !(tk.End? && tk.name == "table")
    case TagLevel => !(tk.Start? && tk.name == "desc") && !(tk.End? && tk.name == "tag")
  }

  predicate Filler(lv: Level, ts: seq<Token>) {
    forall i :: 0 <= i < |ts| ==> Inert(lv, ts[i])
  }

  /** The context machine's state for the loop at `lv`. */
  predicate AtLevel(ctx: Ctx, lv: Level) {
    match lv
    case DocLevel => ctx == Top
    case InfoLevel => ctx == InInfo
    case TableLevel => ctx.InTable?
    case TagLevel => ctx.InTag?
  }

  /** What may stand inside a `<desc>`: character data and anything else
      except a read error, a `</desc>` or a `<taginfo>` start. */
  predicate DescContent(ts: seq<Token>) {
    forall i :: 0 <= i < |ts| ==>
      !ts[i].Fault? && !(ts[i].End? && ts[i].name == "desc") && !(ts[i].Start? && ts[i].name == "taginfo")
  }

  // ---------------------------------------------------------------------
  // Catalogs

  /** Each element is preceded by the filler its parent's loop reads past
      (`pad`); an element with children also carries the filler after its
      last child (`tail`). */
  datatype DescElem = DescElem(pad: seq<Token>, attrs: seq<Attr>, content: seq<Token>)
  datatype TagElem = TagElem(pad: seq<Token>, attrs: seq<Attr>, descs: seq<DescElem>, tail: seq<Token>)
  datatype TableElem = TableElem(pad: seq<Token>, attrs: seq<Attr>, tags: seq<TagElem>, tail: seq<Token>)
  datatype Catalog = Catalog(prolog: seq<Token>, attrs: seq<Attr>, tables: seq<TableElem>, tail: seq<Token>, trailer: seq<Token>)

  predicate DescOk(d: DescElem) {
    Filler(TagLevel, d.pad) && DescContent(d.content)
  }

  predicate DescsOk(ds: seq<DescElem>) {
    ds == [] || (DescOk(ds[0]) && DescsOk(ds[1..]))
  }

  predicate TagOk(g: TagElem) {
    Filler(TableLevel, g.pad) && DescsOk(g.descs) && Filler(TagLevel, g.tail)
  }

  predicate TagsOk(gs: seq<TagElem>) {
    gs == [] || (TagOk(gs[0]) && TagsOk(gs[1..]))
  }

  predicate TableOk(t: TableElem) {
    Filler(InfoLevel, t.pad) && TagsOk(t.tags) && Filler(TableLevel, t.tail)
  }

  predicate TablesOk(ts: seq<TableElem>) {
    ts == [] || (TableOk(ts[0]) && TablesOk(ts[1..]))
  }

  /** Every piece of filler is inert where it stands. */
  predicate WellFormed(c: Catalog) {
    Filler(DocLevel, c.prolog) && TablesOk(c.tables) && Filler(InfoLevel, c.tail) && Filler(DocLevel, c.trailer)
  }

  // ---------------------------------------------------------------------
  // Writing a catalog out as tokens

  function DescTokens(d: DescElem): seq<Token> {
    d.pad + ([Start("desc", d.attrs)] + d.content + [End("desc")])
  }

  function DescsTokens(ds: seq<DescElem>): seq<Token> {
    if ds == [] then [] else DescTokens(ds[0]) + DescsTokens(ds[1..])
  }

  function TagTokens(g: TagElem): seq<Token> {
    g.pad + ([Start("tag", g.attrs)] + DescsTokens(g.descs) + g.tail + [End("tag")])
  }

  function TagsTokens(gs: seq<TagElem>): seq<Token> {
    if gs == [] then [] else TagTokens(gs[0]) + TagsTokens(gs[1..])
  }

  function TableTokens(t: TableElem): seq<Token> {
    t.pad + ([Start("table", t.attrs)] + TagsTokens(t.tags) + t.tail + [End("table")])
  }

  function TablesTokens(ts: seq<TableElem>): seq<Token> {
    if ts == [] then [] else TableTokens(ts[0]) + TablesTokens(ts[1..])
  }

  function CatalogTokens(c: Catalog): seq<Token> {
    c.prolog + ([Start("taginfo", c.attrs)] + TablesTokens(c.tables) + c.tail + [End("taginfo")] + c.trailer)
  }

  // ---------------------------------------------------------------------
  // What a catalog declares

  /** The text of the last character data in `ts`, or `text` when there is
      none. */
  function LastText(ts: seq<Token>, text: string): string
    decreases |ts|
  {
    if ts == [] then text else LastText(ts[1..], if ts[0].CharData? then ts[0].text else text)
  }

  /** A description: its last `lang` attribute and its last piece of
      character data, or "" for either when there is none. */
  function DescOf(d: DescElem): Description {
    DescFromStart(d.attrs).(text := LastText(d.content, ""))
  }

  function DescsOf(ds: seq<DescElem>): (r: seq<Description>)
    ensures |r| == |ds|
  {
    if ds == [] then [] else [DescOf(ds[0])] + DescsOf(ds[1..])
  }

  /** A tag of `table`: built from its own start element and its own
      descriptions only. */
  function TagOf(table: TableInfo, g: TagElem): Tag {
    TagFromStart(table, g.attrs).(descriptions := DescsOf(g.descs))
  }

  function TagsOf(table: TableInfo, gs: seq<TagElem>): (r: seq<Tag>)
    ensures |r| == |gs|
  {
    if gs == [] then [] else [TagOf(table, gs[0])] + TagsOf(table, gs[1..])
  }

  /** The tags of one table, which is named by its first `name` attribute. */
  function TableTags(t: TableElem): seq<Tag> {
    TagsOf(TableFromStart(t.attrs), t.tags)
  }

  function TablesTags(ts: seq<TableElem>): seq<Tag> {
    if ts == [] then [] else TableTags(ts[0]) + TablesTags(ts[1..])
  }

  /** Every tag of the catalog, in document order. */
  function CatalogTags(c: Catalog): seq<Tag> {
    TablesTags(c.tables)
  }

  /** The handler answers nil for every tag. */
  predicate AllContinue(tags: seq<Tag>, h: Handler) {
    forall i :: 0 <= i < |tags| ==> h(tags[i]) == Continue
  }

  /** The tags up to and including the first one not answered with nil. */
  function TakeThrough(tags: seq<Tag>, h: Handler): (r: seq<Tag>)
    ensures AllContinue(tags, h) ==> r == tags
    ensures !AllContinue(tags, h) ==> r != [] && h(r[|r| - 1]) != Continue
    ensures forall i :: 0 <= i < |r| - 1 ==> h(r[i]) == Continue
  {
    if tags == [] then []
    else if h(tags[0]) == Continue then [tags[0]] + TakeThrough(tags[1..], h)
    else [tags[0]]
  }

  /** What the handler sees is a prefix of the catalogue's tags: the walk
      never skips or reorders a tag before the one that ends it. */
  lemma {:induction false} TakeThroughPrefix(tags: seq<Tag>, h: Handler)
    ensures TakeThrough(tags, h) <= tags
  {
    if tags != [] && h(tags[0]) == Continue {
      TakeThroughPrefix(tags[1..], h);
      assert tags == [tags[0]] + tags[1..];
    }
  }

  lemma {:induction false} TakeThroughConcat(a: seq<Tag>, b: seq<Tag>, h: Handler)
    ensures TakeThrough(a + b, h) == if AllContinue(a, h) then a + TakeThrough(b, h) else TakeThrough(a, h)
  {
    if a != [] {
      var ab := a + b;
      assert ab[0] == a[0] && ab[1..] == a[1..] + b;
      if h(a[0]) == Continue {
        assert TakeThrough(ab, h) == [a[0]] + TakeThrough(a[1..] + b, h);
        TakeThroughConcat(a[1..], b, h);
        assert a == [a[0]] + a[1..];
        AllContinueConcat([a[0]], a[1..], h);
        if AllContinue(a[1..], h) {
          assert [a[0]] + (a[1..] + TakeThrough(b, h)) == a + TakeThrough(b, h);
        }
      } else {
        assert !AllContinue(a, h) by {
          assert h(a[0]) != Continue;
        }
      }
    } else {
      assert a + b == b;
    }
  }

  // ---------------------------------------------------------------------
  // Running the context machine over the pieces

  lemma {:induction false} ExecConcat(a: seq<Token>, b: seq<Token>, ctx: Ctx, h: Handler)
    ensures Exec(a + b, ctx, h) ==
      var ra := Exec(a, ctx, h);
      var rb := Exec(b, ra.ctx, h);
      Run(rb.ctx, ra.sent + rb.sent)
    decreases |a|
  {
    if a == [] {
      assert a + b == b;
    } else {
      var s := Step(ctx, a[0], h);
      ExecConcat(a[1..], b, s.ctx, h);
      var ra' := Exec(a[1..], s.ctx, h);
      var rb := Exec(b, ra'.ctx, h);
      assert Exec(a + b, ctx, h) == Run(rb.ctx, s.sent + (ra'.sent + rb.sent)) by {
        assert (a + b)[0] == a[0];
        assert (a + b)[1..] == a[1..] + b;
      }
      assert s.sent + (ra'.sent + rb.sent) == (s.sent + ra'.sent) + rb.sent;
    }
  }

  /** ExecConcat with the two intermediate runs named. */
  lemma ExecSeq(a: seq<Token>, b: seq<Token>, ctx: Ctx, mid: Run, fin: Run, h: Handler)
    requires Exec(a, ctx, h) == mid && Exec(b, mid.ctx, h) == fin
    ensures Exec(a + b, ctx, h) == Run(fin.ctx, mid.sent + fin.sent)
  {
    ExecConcat(a, b, ctx, h);
  }

  lemma ExecOne(tk: Token, ctx: Ctx, h: Handler)
    ensures Exec([tk], ctx, h) == Step(ctx, tk, h)
  {
    assert [tk][1..] == [];
  }

  /** No read error and no `<taginfo>` start. */
  predicate Clean(ts: seq<Token>) {
    Filler(DocLevel, ts)
  }

  lemma CleanConcat(a: seq<Token>, b: seq<Token>)
    requires Clean(a) && Clean(b)
    ensures Clean(a + b)
  {
    forall i | 0 <= i < |a + b| ensures Inert(DocLevel, (a + b)[i]) {
      if i < |a| {
        assert (a + b)[i] == a[i];
      } else {
        assert (a + b)[i] == b[i - |a|];
      }
    }
  }

  /** Filler at any level is clean. */
  lemma FillerClean(lv: Level, ts: seq<Token>)
    requires Filler(lv, ts)
    ensures Clean(ts)
  {
    forall i | 0 <= i < |ts| ensures Inert(DocLevel, ts[i]) {
      assert Inert(lv, ts[i]);
    }
  }

  lemma {:induction false} CleanDescs(ds: seq<DescElem>)
    requires DescsOk(ds)
    ensures Clean(DescsTokens(ds))
    decreases |ds|
  {
    if ds != [] {
      var d := ds[0];
      var open := [Start("desc", d.attrs)];
      FillerClean(TagLevel, d.pad);
      assert Clean(d.content) by {
        forall i | 0 <= i < |d.content| ensures Inert(DocLevel, d.content[i]) {
        }
      }
      CleanConcat(open, d.content);
      CleanConcat(open + d.content, [End("desc")]);
      CleanConcat(d.pad, open + d.content + [End("desc")]);
      CleanDescs(ds[1..]);
      CleanConcat(DescTokens(d), DescsTokens(ds[1..]));
    }
  }

  lemma {:induction false} CleanTags(gs: seq<TagElem>)
    requires TagsOk(gs)
    ensures Clean(TagsTokens(gs))
    decreases |gs|
  {
    if gs != [] {
      var g := gs[0];
      var open := [Start("tag", g.attrs)];
      FillerClean(TableLevel, g.pad);
      FillerClean(TagLevel, g.tail);
      CleanDescs(g.descs);
      CleanConcat(open, DescsTokens(g.descs));
      CleanConcat(open + DescsTokens(g.descs), g.tail);
      CleanConcat(open + DescsTokens(g.descs) + g.tail, [End("tag")]);
      CleanConcat(g.pad, open + DescsTokens(g.descs) + g.tail + [End("tag")]);
      CleanTags(gs[1..]);
      CleanConcat(TagTokens(g), TagsTokens(gs[1..]));
    }
  }

  lemma {:induction false} CleanTables(ts: seq<TableElem>)
    requires TablesOk(ts)
    ensures Clean(TablesTokens(ts))
    decreases |ts|
  {
    if ts != [] {
      var t := ts[0];
      var open := [Start("table", t.attrs)];
      FillerClean(InfoLevel, t.pad);
      FillerClean(TableLevel, t.tail);
      CleanTags(t.tags);
      CleanConcat(open, TagsTokens(t.tags));
      CleanConcat(open + TagsTokens(t.tags), t.tail);
      CleanConcat(open + TagsTokens(t.tags) + t.tail, [End("table")]);
      CleanConcat(t.pad, open + TagsTokens(t.tags) + t.tail + [End("table")]);
      CleanTables(ts[1..]);
      CleanConcat(TableTokens(t), TablesTokens(ts[1..]));
    }
  }

  /** After a handler error (document level) or a stop (halted), the rest of
      a catalog hands nothing over. */
  predicate Quiet(ctx: Ctx) {
    ctx == Top || ctx == Halted
  }

  /** Where the walk sits after the handler answered `v`, other than nil,
      for a tag of a catalog. */
  function Settled(v: Verdict): (r: Ctx)
    ensures Quiet(r)
  {
    if v == Stop then Halted else Top
  }

  lemma {:induction false} QuietStays(ts: seq<Token>, ctx: Ctx, h: Handler)
    requires Clean(ts) && Quiet(ctx)
    ensures Exec(ts, ctx, h) == Run(ctx, [])
    decreases |ts|
  {
    if ts != [] {
      assert Clean(ts[1..]) by {
        forall i | 0 <= i < |ts[1..]| ensures Inert(DocLevel, ts[1..][i]) {
          assert ts[1..][i] == ts[i + 1];
        }
      }
      assert Inert(DocLevel, ts[0]);
      QuietStays(ts[1..], ctx, h);
    }
  }

  /** The loop at `lv` reads past its filler without handing anything over. */
  lemma {:induction false} ExecFiller(lv: Level, ts: seq<Token>, ctx: Ctx, h: Handler)
    requires Filler(lv, ts) && AtLevel(ctx, lv)
    ensures Exec(ts, ctx, h) == Run(ctx, [])
    decreases |ts|
  {
    if ts != [] {
      assert Inert(lv, ts[0]);
      assert Step(ctx, ts[0], h) == Run(ctx, []);
      assert Filler(lv, ts[1..]) by {
        forall i | 0 <= i < |ts[1..]| ensures Inert(lv, ts[1..][i]) {
          assert ts[1..][i] == ts[i + 1];
        }
      }
      ExecFiller(lv, ts[1..], ctx, h);
    }
  }

  /** Filler in front of a piece changes nothing about the piece's run. */
  lemma ExecPadded(pad: seq<Token>, rest: seq<Token>, lv: Level, ctx: Ctx, r: Run, h: Handler)
    requires Filler(lv, pad) && AtLevel(ctx, lv) && Exec(rest, ctx, h) == r
    ensures Exec(pad + rest, ctx, h) == r
  {
    ExecFiller(lv, pad, ctx, h);
    ExecSeq(pad, rest, ctx, Run(ctx, []), r, h);
    assert [] + r.sent == r.sent;
  }

  // ---------------------------------------------------------------------
  // The pieces of a catalog, one level at a time

  /** Inside a `<desc>` the last character data becomes the text. */
  lemma {:induction false} ExecContent(ts: seq<Token>, g: Tag, d: Description, h: Handler)
    requires DescContent(ts)
    ensures Exec(ts, InDesc(g, d), h) == Run(InDesc(g, d.(text := LastText(ts, d.text))), [])
    decreases |ts|
  {
    if ts != [] {
      var d1 := d.(text := if ts[0].CharData? then ts[0].text else d.text);
      assert Step(InDesc(g, d), ts[0], h) == Run(InDesc(g, d1), []);
      assert DescContent(ts[1..]) by {
        forall i | 0 <= i < |ts[1..]|
          ensures !ts[1..][i].Fault? && !(ts[1..][i].End? && ts[1..][i].name == "desc") &&
            !(ts[1..][i].Start? && ts[1..][i].name == "taginfo")
        {
          assert ts[1..][i] == ts[i + 1];
        }
      }
      ExecContent(ts[1..], g, d1, h);
    }
  }

  lemma ExecDesc(de: DescElem, g: Tag, h: Handler)
    requires DescOk(de)
    ensures Exec(DescTokens(de), InTag(g), h) == Run(InTag(g.(descriptions := g.descriptions + [DescOf(de)])), [])
  {
    var d0 := DescFromStart(de.attrs);
    var open := [Start("desc", de.attrs)];
    var inDesc := Run(InDesc(g, DescOf(de)), []);
    var done := Run(InTag(g.(descriptions := g.descriptions + [DescOf(de)])), []);
    assert Exec(open + de.content, InTag(g), h) == inDesc by {
      ExecOne(Start("desc", de.attrs), InTag(g), h);
      ExecContent(de.content, g, d0, h);
      ExecSeq(open, de.content, InTag(g), Run(InDesc(g, d0), []), inDesc, h);
    }
    ExecOne(End("desc"), InDesc(g, DescOf(de)), h);
    ExecSeq(open + de.content, [End("desc")], InTag(g), inDesc, done, h);
    ExecPadded(de.pad, open + de.content + [End("desc")], TagLevel, InTag(g), done, h);
  }

  lemma {:induction false} ExecDescs(ds: seq<DescElem>, g: Tag, h: Handler)
    requires DescsOk(ds)
    ensures Exec(DescsTokens(ds), InTag(g), h) == Run(InTag(g.(descriptions := g.descriptions + DescsOf(ds))), [])
    decreases |ds|
  {
    if ds == [] {
      assert g.descriptions + [] == g.descriptions;
    } else {
      var g1 := g.(descriptions := g.descriptions + [DescOf(ds[0])]);
      var g2 := g1.(descriptions := g1.descriptions + DescsOf(ds[1..]));
      ExecDesc(ds[0], g, h);
      ExecDescs(ds[1..], g1, h);
      ExecSeq(DescTokens(ds[0]), DescsTokens(ds[1..]), InTag(g), Run(InTag(g1), []), Run(InTag(g2), []), h);
      assert g2.descriptions == g.descriptions + DescsOf(ds) by {
        assert DescsOf(ds) == [DescOf(ds[0])] + DescsOf(ds[1..]);
        assert (g.descriptions + [DescOf(ds[0])]) + DescsOf(ds[1..]) == g.descriptions + ([DescOf(ds[0])] + DescsOf(ds[1..]));
      }
    }
  }

  lemma ExecTag(te: TagElem, t: TableInfo, h: Handler)
    requires TagOk(te)
    ensures Exec(TagTokens(te), InTable(t), h) == Run(AfterVerdict(h(TagOf(t, te)), t), [TagOf(t, te)])
  {
    var g0 := TagFromStart(t, te.attrs);
    var tag := TagOf(t, te);
    var open := [Start("tag", te.attrs)];
    var inTag := Run(InTag(tag), []);
    var done := Run(AfterVerdict(h(tag), t), [tag]);
    assert Exec(open + DescsTokens(te.descs), InTable(t), h) == inTag by {
      ExecOne(Start("tag", te.attrs), InTable(t), h);
      ExecDescs(te.descs, g0, h);
      assert g0.descriptions + DescsOf(te.descs) == DescsOf(te.descs);
      ExecSeq(open, DescsTokens(te.descs), InTable(t), Run(InTag(g0), []), inTag, h);
    }
    ExecFiller(TagLevel, te.tail, InTag(tag), h);
    ExecSeq(open + DescsTokens(te.descs), te.tail, InTable(t), inTag, inTag, h);
    ExecOne(End("tag"), InTag(tag), h);
    ExecSeq(open + DescsTokens(te.descs) + te.tail, [End("tag")], InTable(t), inTag, done, h);
    ExecPadded(te.pad, open + DescsTokens(te.descs) + te.tail + [End("tag")], TableLevel, InTable(t), done, h);
  }

  lemma AllContinueConcat(a: seq<Tag>, b: seq<Tag>, h: Handler)
    ensures AllContinue(a + b, h) <==> AllContinue(a, h) && AllContinue(b, h)
  {
    if AllContinue(a, h) && AllContinue(b, h) {
      forall i | 0 <= i < |a + b| ensures h((a + b)[i]) == Continue {
        if i >= |a| {
          assert (a + b)[i] == b[i - |a|];
        }
      }
    }
    if AllContinue(a + b, h) {
      forall i | 0 <= i < |a| ensures h(a[i]) == Continue {
        assert a[i] == (a + b)[i];
      }
      forall i | 0 <= i < |b| ensures h(b[i]) == Continue {
        assert b[i] == (a + b)[i + |a|];
      }
    }
  }

  /** Run `r` handed over `tags` as the walk does: up to and including the
      first tag not answered with nil.  It then ends in `home` if every tag
      was answered with nil, and otherwise where that last answer sent it. */
  predicate Delivers(r: Run, tags: seq<Tag>, h: Handler, home: Ctx) {
    var tt := TakeThrough(tags, h);
    r.sent == tt &&
    (if AllContinue(tags, h) then r.ctx == home else r.ctx == Settled(h(tt[|tt| - 1])))
  }

  /** Two pieces in a row: the second one runs only if the first ended at home. */
  lemma DeliversConcat(first: seq<Tag>, rest: seq<Tag>, mid: Run, tail: Run, h: Handler, home: Ctx)
    requires Delivers(mid, first, h, home)
    requires AllContinue(first, h) ==> Delivers(tail, rest, h, home)
    requires !AllContinue(first, h) ==> tail == Run(mid.ctx, [])
    ensures Delivers(Run(tail.ctx, mid.sent + tail.sent), first + rest, h, home)
  {
    TakeThroughConcat(first, rest, h);
    AllContinueConcat(first, rest, h);
    if AllContinue(first, h) {
      var tr := TakeThrough(rest, h);
      if !AllContinue(rest, h) {
        assert (first + tr)[|first + tr| - 1] == tr[|tr| - 1];
      }
    } else {
      assert mid.sent + [] == mid.sent;
    }
  }

  lemma {:induction false} ExecTags(gs: seq<TagElem>, t: TableInfo, h: Handler)
    requires TagsOk(gs)
    ensures Delivers(Exec(TagsTokens(gs), InTable(t), h), TagsOf(t, gs), h, InTable(t))
    decreases |gs|
  {
    if gs != [] {
      var tag := TagOf(t, gs[0]);
      var mid := Run(AfterVerdict(h(tag), t), [tag]);
      var tail := Exec(TagsTokens(gs[1..]), mid.ctx, h);
      assert TagsOf(t, gs) == [tag] + TagsOf(t, gs[1..]);
      ExecTag(gs[0], t, h);
      assert Delivers(mid, [tag], h, InTable(t)) by {
        assert [tag][1..] == [];
      }
      if h(tag) == Continue {
        ExecTags(gs[1..], t, h);
      } else {
        CleanTags(gs[1..]);
        QuietStays(TagsTokens(gs[1..]), mid.ctx, h);
      }
      ExecSeq(TagTokens(gs[0]), TagsTokens(gs[1..]), InTable(t), mid, tail, h);
      DeliversConcat([tag], TagsOf(t, gs[1..]), mid, tail, h, InTable(t));
    }
  }

  /** The filler after the last child leaves a run as it is: at home the
      loop reads past it, and after a stop or an error nothing reads it. */
  lemma ExecTail(ts: seq<Token>, tail: seq<Token>, lv: Level, home: Ctx, h: Handler)
    requires Filler(lv, tail) && AtLevel(home, lv)
    requires Exec(ts, home, h).ctx == home || Quiet(Exec(ts, home, h).ctx)
    ensures Exec(ts + tail, home, h) == Exec(ts, home, h)
  {
    var body := Exec(ts, home, h);
    if body.ctx == home {
      ExecFiller(lv, tail, body.ctx, h);
    } else {
      FillerClean(lv, tail);
      QuietStays(tail, body.ctx, h);
    }
    ExecSeq(ts, tail, home, body, Run(body.ctx, []), h);
    assert body.sent + [] == body.sent;
  }

  lemma ExecTable(te: TableElem, h: Handler)
    requires TableOk(te)
    ensures Delivers(Exec(TableTokens(te), InInfo, h), TableTags(te), h, InInfo)
  {
    var t := TableFromStart(te.attrs);
    var body := Exec(TagsTokens(te.tags), InTable(t), h);
    ExecTags(te.tags, t, h);
    assert AllContinue(TableTags(te), h) ==> body.ctx == InTable(t);
    assert !AllContinue(TableTags(te), h) ==> Quiet(body.ctx);
    ExecTableFrame(te, h);
  }

  /** The tokens around the tags of a table: the walk returns to the taginfo
      level, or stays where the tags left it after a stop or an error. */
  lemma ExecTableFrame(te: TableElem, h: Handler)
    requires TableOk(te)
    requires var body := Exec(TagsTokens(te.tags), InTable(TableFromStart(te.attrs)), h);
      body.ctx == InTable(TableFromStart(te.attrs)) || Quiet(body.ctx)
    ensures var t := TableFromStart(te.attrs);
      var body := Exec(TagsTokens(te.tags), InTable(t), h);
      Exec(TableTokens(te), InInfo, h) == Run(if body.ctx == InTable(t) then InInfo else body.ctx, body.sent)
  {
    var t := TableFromStart(te.attrs);
    var body := Exec(TagsTokens(te.tags), InTable(t), h);
    var after := if body.ctx == InTable(t) then InInfo else body.ctx;
    var open := [Start("table", te.attrs)];
    var inner := TagsTokens(te.tags) + te.tail;
    ExecTail(TagsTokens(te.tags), te.tail, TableLevel, InTable(t), h);
    assert Exec(open + inner, InInfo, h) == body by {
      ExecOne(Start("table", te.attrs), InInfo, h);
      ExecSeq(open, inner, InInfo, Run(InTable(t), []), body, h);
      assert [] + body.sent == body.sent;
    }
    ExecOne(End("table"), body.ctx, h);
    ExecSeq(open + inner, [End("table")], InInfo, body, Run(after, []), h);
    assert body.sent + [] == body.sent;
    assert open + inner == open + TagsTokens(te.tags) + te.tail;
    ExecPadded(te.pad, open + inner + [End("table")], InfoLevel, InInfo, Run(after, body.sent), h);
  }

  lemma {:induction false} ExecTables(ts: seq<TableElem>, h: Handler)
    requires TablesOk(ts)
    ensures Delivers(Exec(TablesTokens(ts), InInfo, h), TablesTags(ts), h, InInfo)
    decreases |ts|
  {
    if ts != [] {
      var mid := Exec(TableTokens(ts[0]), InInfo, h);
      var tail := Exec(TablesTokens(ts[1..]), mid.ctx, h);
      ExecTable(ts[0], h);
      if AllContinue(TableTags(ts[0]), h) {
        ExecTables(ts[1..], h);
      } else {
        CleanTables(ts[1..]);
        QuietStays(TablesTokens(ts[1..]), mid.ctx, h);
      }
      ExecSeq(TableTokens(ts[0]), TablesTokens(ts[1..]), InInfo, mid, tail, h);
      DeliversConcat(TableTags(ts[0]), TablesTags(ts[1..]), mid, tail, h, InInfo);
    }
  }

  /** The tokens around the tables of a catalog: the walk ends at the
      document level, or stays where the tables left it after a stop or an
      error. */
  lemma ExecCatalogFrame(c: Catalog, h: Handler)
    requires WellFormed(c)
    requires var body := Exec(TablesTokens(c.tables), InInfo, h); body.ctx == InInfo || Quiet(body.ctx)
    ensures var body := Exec(TablesTokens(c.tables), InInfo, h);
      Exec(CatalogTokens(c), Top, h) == Run(if body.ctx == InInfo then Top else body.ctx, body.sent)
  {
    var body := Exec(TablesTokens(c.tables), InInfo, h);
    var after := if body.ctx == InInfo then Top else body.ctx;
    var open := [Start("taginfo", c.attrs)];
    var inner := TablesTokens(c.tables) + c.tail;
    var core := open + inner + [End("taginfo")];
    var done := Run(after, body.sent);
    ExecTail(TablesTokens(c.tables), c.tail, InfoLevel, InInfo, h);
    assert Exec(open + inner, Top, h) == body by {
      ExecOne(Start("taginfo", c.attrs), Top, h);
      ExecSeq(open, inner, Top, Run(InInfo, []), body, h);
      assert [] + body.sent == body.sent;
    }
    ExecOne(End("taginfo"), body.ctx, h);
    ExecSeq(open + inner, [End("taginfo")], Top, body, Run(after, []), h);
    assert body.sent + [] == body.sent;
    QuietStays(c.trailer, after, h);
    ExecSeq(core, c.trailer, Top, done, Run(after, []), h);
    assert open + inner == open + TablesTokens(c.tables) + c.tail;
    ExecPadded(c.prolog, core + c.trailer, DocLevel, Top, done, h);
  }

  /** The context machine over a whole catalog. */
  lemma ExecCatalog(c: Catalog, h: Handler)
    requires WellFormed(c)
    ensures Delivers(Exec(CatalogTokens(c), Top, h), CatalogTags(c), h, Top)
  {
    var body := Exec(TablesTokens(c.tables), InInfo, h);
    ExecTables(c.tables, h);
    ExecCatalogFrame(c, h);
  }

  // ---------------------------------------------------------------------
  // What WalkTags delivers for a catalog

  /** The walk hands the handler the catalog's tags in document order, each
      one built only from its own `<tag>` element and enclosing `<table>`, up
      to and including the first tag the handler does not answer with nil. */
  lemma WalkDeliversCatalog(c: Catalog, h: Handler)
    requires WellFormed(c)
    ensures WalkLoop(CatalogTokens(c), 0, h).sent == TakeThrough(CatalogTags(c), h)
  {
    WalkIsMachine(CatalogTokens(c), h);
    ExecCatalog(c, h);
  }

  /** A handler that never stops receives every tag of the catalog. */
  lemma NeverStoppingSeesAll(c: Catalog, h: Handler)
    requires WellFormed(c)
    requires forall t :: h(t) == Continue
    ensures WalkLoop(CatalogTokens(c), 0, h).sent == CatalogTags(c)
  {
    WalkDeliversCatalog(c, h);
  }

  /** A handler that always stops is called exactly once when the catalog
      has a tag, and never otherwise. */
  lemma AlwaysStoppingCalledOnce(c: Catalog, h: Handler)
    requires WellFormed(c)
    requires forall t :: h(t) == Stop
    ensures var sent := WalkLoop(CatalogTokens(c), 0, h).sent;
      if CatalogTags(c) == [] then sent == [] else sent == [CatalogTags(c)[0]]
  {
    WalkDeliversCatalog(c, h);
  }

  /** A catalog holds no read error, so the walk's own status ends nil
      whatever the handler answers. */
  lemma CatalogStatusNil(c: Catalog, h: Handler)
    requires WellFormed(c)
    ensures WalkLoop(CatalogTokens(c), 0, h).inner == NoError
  {
    var open := [Start("taginfo", c.attrs)];
    var inner := TablesTokens(c.tables) + c.tail;
    CleanTables(c.tables);
    FillerClean(InfoLevel, c.tail);
    CleanConcat(TablesTokens(c.tables), c.tail);
    NoFaultConcat(open, inner);
    NoFaultConcat(open + inner, [End("taginfo")]);
    NoFaultConcat(open + inner + [End("taginfo")], c.trailer);
    NoFaultConcat(c.prolog, open + inner + [End("taginfo")] + c.trailer);
  }

  predicate NoFault(ts: seq<Token>) {
    forall i :: 0 <= i < |ts| ==> !ts[i].Fault?
  }

  lemma NoFaultConcat(a: seq<Token>, b: seq<Token>)
    requires NoFault(a) || Clean(a)
    requires NoFault(b) || Clean(b)
    ensures NoFault(a + b)
  {
    forall i | 0 <= i < |a + b| ensures !(a + b)[i].Fault? {
      if i < |a| {
        assert (a + b)[i] == a[i];
        assert Clean(a) ==> Inert(DocLevel, a[i]);
      } else {
        assert (a + b)[i] == b[i - |a|];
        assert Clean(b) ==> Inert(DocLevel, b[i - |a|]);
      }
    }
  }
}
