/** A sitemap: an ordered list of items, rendered either as a standalone
    `<urlset>` document or as one `<sitemap>` entry of a sitemap index. */
module Sitemaps {
  import opened Options
  import opened Uris
  import opened Dates
  import opened Writers
  import opened Items

  const XmlDeclaration := "<?xml version=\"1.0\" encoding=\"UTF-8\"?>"
  const UrlsetStart := "<urlset xmlns=\"http://www.sitemaps.org/schemas/sitemap/0.9\">"
  const UrlsetEnd := "</urlset>"
  const EntryStart := "<sitemap>"
  const EntryEnd := "</sitemap>"
  const MissingLocation :=
    "The sitemap hase to have a location, when it is being rendered in a sitemap index."

  /** `location` and `lastMod` are only read when the sitemap is rendered
      inside an index; the location is mandatory there. */
  datatype Sitemap = Sitemap(items: seq<Item>, location: Option<Uri>, lastMod: Option<CalendarDate>)

  function Empty(): (sm: Sitemap)
    ensures sm.items == [] && sm.location.None? && sm.lastMod.None?
  {
    Sitemap([], None, None)
  }

  /** A new, empty sitemap with the given (possibly absent) location. */
  function At(location: Option<Uri>): (sm: Sitemap)
    ensures sm.items == [] && sm.lastMod.None?
    ensures GetLocation(sm) == location
  {
    Sitemap([], location, None)
  }

  function GetLocation(sm: Sitemap): Option<Uri> {
    sm.location
  }

  function SetLocation(sm: Sitemap, location: Option<Uri>): (r: Sitemap)
    ensures GetLocation(r) == location
    ensures r.items == sm.items && r.lastMod == sm.lastMod
  {
    sm.(location := location)
  }

  function SetLastModification(sm: Sitemap, mod: Option<CalendarDate>): (r: Sitemap)
    ensures r.lastMod == mod
    ensures r.items == sm.items && GetLocation(r) == GetLocation(sm)
  {
    sm.(lastMod := mod)
  }

  /** Appends one item; like any list append, reports a change. */
  function Add(sm: Sitemap, it: Item): (r: (Sitemap, bool))
    ensures r.1
    ensures |r.0.items| == |sm.items| + 1
    ensures r.0.items[..|sm.items|] == sm.items && r.0.items[|sm.items|] == it
    ensures GetLocation(r.0) == GetLocation(sm) && r.0.lastMod == sm.lastMod
  {
    (sm.(items := sm.items + [it]), true)
  }

  /** Appends `c` in order; reports a change exactly when `c` is non-empty. */
  function AddAll(sm: Sitemap, c: seq<Item>): (r: (Sitemap, bool))
    ensures r.1 <==> |c| > 0
    ensures |r.0.items| == |sm.items| + |c|
    ensures r.0.items[..|sm.items|] == sm.items && r.0.items[|sm.items|..] == c
    ensures GetLocation(r.0) == GetLocation(sm) && r.0.lastMod == sm.lastMod
  {
    (sm.(items := sm.items + c), |c| > 0)
  }

  /** Adding the items of `c` one at a time, first to last. */
  function AddEach(sm: Sitemap, c: seq<Item>): Sitemap
    decreases |c|
  {
    if c == [] then sm else AddEach(Add(sm, c[0]).0, c[1..])
  }

  lemma {:induction false} AddAllIsRepeatedAdd(sm: Sitemap, c: seq<Item>)
    ensures AddAll(sm, c).0 == AddEach(sm, c)
    decreases |c|
  {
    if c != [] {
      var next := Add(sm, c[0]).0;
      AddAllIsRepeatedAdd(next, c[1..]);
      assert next.items + c[1..] == sm.items + c;
    }
  }

  /** The location reads back as the value most recently given to the
      constructor or the setter; adding items or setting the date keeps it. */
  lemma LocationIsLastSet(sm: Sitemap, location: Option<Uri>, it: Item, c: seq<Item>, mod: Option<CalendarDate>)
    ensures GetLocation(At(location)) == location
    ensures GetLocation(SetLocation(sm, location)) == location
    ensures GetLocation(Add(sm, it).0) == GetLocation(sm)
    ensures GetLocation(AddAll(sm, c).0) == GetLocation(sm)
    ensures GetLocation(SetLastModification(sm, mod)) == GetLocation(sm)
  {
  }

  /** The item renderings one after the other, in list order. */
  function ItemsText(items: seq<Item>, show: PriorityText): string {
    if items == [] then [] else Items.Text(items[0], show) + ItemsText(items[1..], show)
  }

  /** Renders each item in turn through the same writer. */
  function RenderItems(items: seq<Item>, show: PriorityText, w: Writer): (r: Writer)
    ensures r.text == w.text + ItemsText(items, show)
  {
    if items == [] then
      w
    else
      var next := Items.Render(items[0], show, w);
      var r := RenderItems(items[1..], show, next);
      AppendAssociates(w.text, Items.Text(items[0], show), ItemsText(items[1..], show));
      r
  }

  /** The standalone document: declaration, `<urlset>`, every item in order,
      `</urlset>`. Neither the location nor the date is read. */
  function Render(sm: Sitemap, show: PriorityText, w: Writer): (r: Writer)
    ensures r.text == w.text + XmlDeclaration + UrlsetStart + ItemsText(sm.items, show) + UrlsetEnd
  {
    var w1 := w.Write(XmlDeclaration).Write(UrlsetStart);
    var w2 := RenderItems(sm.items, show, w1);
    w2.Write(UrlsetEnd)
  }

  lemma RenderIgnoresLocation(sm: Sitemap, show: PriorityText, w: Writer,
                              location: Option<Uri>, mod: Option<CalendarDate>)
    ensures Render(sm.(location := location, lastMod := mod), show, w) == Render(sm, show, w)
  {
  }

  lemma EmptyRender(sm: Sitemap, show: PriorityText)
    requires sm.items == []
    ensures Render(sm, show, Writer([])).text ==
      "<?xml version=\"1.0\" encoding=\"UTF-8\"?>"
      + "<urlset xmlns=\"http://www.sitemaps.org/schemas/sitemap/0.9\">"
      + "</urlset>"
  {
    var t := Render(sm, show, Writer([])).text;
    assert ItemsText(sm.items, show) == [];
    assert t == [] + XmlDeclaration + UrlsetStart + [] + UrlsetEnd;
    assert [] + XmlDeclaration == XmlDeclaration;
    assert XmlDeclaration + UrlsetStart + [] == XmlDeclaration + UrlsetStart;
  }

  /** The `<sitemap>` entry of a located sitemap: location, then the date
      when one is set. */
  function EntryText(location: Uri, mod: Option<CalendarDate>): string {
    EntryStart + LocElement(location) + LastmodElement(mod) + EntryEnd
  }

  /** Writes the sitemap's entry for an index. Without a location it throws
      after `<sitemap>` has already been written. Items are never written. */
  function RenderForIndex(sm: Sitemap, w: Writer): (r: Rendered)
    ensures r.Aborted? <==> sm.location.None?
    ensures r.Aborted? ==> r.failure == IllegalArgument(MissingLocation)
    ensures r.Aborted? ==> r.out.text == w.text + EntryStart
    ensures r.Done? ==> r.out.text == w.text + EntryText(sm.location.value, sm.lastMod)
  {
    var w1 := w.Write(EntryStart);
    var location := GetLocation(sm);
    if location.None? then
      Aborted(w1, IllegalArgument(MissingLocation))
    else
      var loc := LocElement(location.value);
      var mod := LastmodElement(sm.lastMod);
      var w2 := w1.Write(loc);
      var w3 := if sm.lastMod.Some? then w2.Write(mod) else w2;
      var r := w3.Write(EntryEnd);
      assert r.text == w.text + EntryStart + loc + mod + EntryEnd;
      AppendAssociates(w.text, EntryStart, loc);
      AppendAssociates(w.text, EntryStart + loc, mod);
      AppendAssociates(w.text, EntryStart + loc + mod, EntryEnd);
      Done(r)
  }

  lemma RenderForIndexIgnoresItems(sm: Sitemap, items: seq<Item>, w: Writer)
    ensures RenderForIndex(sm.(items := items), w) == RenderForIndex(sm, w)
  {
  }
}
