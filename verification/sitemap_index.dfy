/** A sitemap index: an ordered list of sitemaps, each rendered as a
    `<sitemap>` entry. Rendering stops at the first sitemap without a
    location. */
module SitemapIndexes {
  import opened Writers
  import opened Items
  import opened Sitemaps

  const IndexStart := "<sitemapindex xmlns=\"http://www.sitemaps.org/schemas/sitemap/0.9\">"
  const IndexEnd := "</sitemapindex>"

  /** The members are the sitemaps' values at the time they were added. */
  datatype SitemapIndex = SitemapIndex(sitemaps: seq<Sitemap>)

  function Empty(): (idx: SitemapIndex)
    ensures idx.sitemaps == []
  {
    SitemapIndex([])
  }

  function Add(idx: SitemapIndex, sm: Sitemap): (r: (SitemapIndex, bool))
    ensures r.1
    ensures |r.0.sitemaps| == |idx.sitemaps| + 1
    ensures r.0.sitemaps[..|idx.sitemaps|] == idx.sitemaps && r.0.sitemaps[|idx.sitemaps|] == sm
  {
    (SitemapIndex(idx.sitemaps + [sm]), true)
  }

  function AddAll(idx: SitemapIndex, c: seq<Sitemap>): (r: (SitemapIndex, bool))
    ensures r.1 <==> |c| > 0
    ensures |r.0.sitemaps| == |idx.sitemaps| + |c|
    ensures r.0.sitemaps[..|idx.sitemaps|] == idx.sitemaps && r.0.sitemaps[|idx.sitemaps|..] == c
  {
    (SitemapIndex(idx.sitemaps + c), |c| > 0)
  }

  /** Adding the sitemaps of `c` one at a time, first to last. */
  function AddEach(idx: SitemapIndex, c: seq<Sitemap>): SitemapIndex
    decreases |c|
  {
    if c == [] then idx else AddEach(Add(idx, c[0]).0, c[1..])
  }

  lemma {:induction false} AddAllIsRepeatedAdd(idx: SitemapIndex, c: seq<Sitemap>)
    ensures AddAll(idx, c).0 == AddEach(idx, c)
    decreases |c|
  {
    if c != [] {
      var next := Add(idx, c[0]).0;
      AddAllIsRepeatedAdd(next, c[1..]);
      assert next.sitemaps + c[1..] == idx.sitemaps + c;
    }
  }

  predicate AllLocated(ms: seq<Sitemap>) {
    forall i | 0 <= i < |ms| :: ms[i].location.Some?
  }

  /** The position of the first sitemap that has no location. */
  function FirstUnlocated(ms: seq<Sitemap>): (k: nat)
    requires !AllLocated(ms)
    ensures k < |ms| && ms[k].location.None?
    ensures AllLocated(ms[..k])
  {
    if ms[0].location.None? then
      0
    else
      var k := 1 + FirstUnlocated(ms[1..]);
      assert ms[..k] == [ms[0]] + ms[1..][..k - 1];
      k
  }

  /** The `<sitemap>` entries of located sitemaps, one after the other. */
  function EntriesText(ms: seq<Sitemap>): string
    requires AllLocated(ms)
  {
    if ms == [] then [] else EntryText(ms[0].location.value, ms[0].lastMod) + EntriesText(ms[1..])
  }

  /** The entries before the first unlocated sitemap, when the head is
      located: the head's entry, then those of the tail. */
  lemma EntriesBeforeFirstUnlocated(ms: seq<Sitemap>)
    requires ms != [] && ms[0].location.Some? && !AllLocated(ms[1..])
    ensures !AllLocated(ms) && FirstUnlocated(ms) == FirstUnlocated(ms[1..]) + 1
    ensures EntriesText(ms[..FirstUnlocated(ms)]) ==
            EntryText(ms[0].location.value, ms[0].lastMod) + EntriesText(ms[1..][..FirstUnlocated(ms[1..])])
  {
    var k := FirstUnlocated(ms[1..]);
    assert ms[1..][k] == ms[k + 1];
    assert ms[..k + 1][1..] == ms[1..][..k];
  }

  /** Renders each sitemap's entry in turn; the first exception ends the loop. */
  function RenderEntries(ms: seq<Sitemap>, w: Writer): (r: Rendered)
    ensures r.Done? <==> AllLocated(ms)
    ensures r.Done? ==> r.out.text == w.text + EntriesText(ms)
    ensures r.Aborted? ==> r.failure == IllegalArgument(MissingLocation)
    ensures r.Aborted? ==> r.out.text == w.text + EntriesText(ms[..FirstUnlocated(ms)]) + EntryStart
  {
    if ms == [] then
      Done(w)
    else
      match RenderForIndex(ms[0], w)
      case Aborted(out, failure) =>
        Aborted(out, failure)
      case Done(next) =>
        var r := RenderEntries(ms[1..], next);
        var entry := EntryText(ms[0].location.value, ms[0].lastMod);
        assert AllLocated(ms) <==> AllLocated(ms[1..]);
        if r.Done? then
          AppendAssociates(w.text, entry, EntriesText(ms[1..]));
          r
        else
          EntriesBeforeFirstUnlocated(ms);
          AppendAssociates(w.text, entry, EntriesText(ms[1..][..FirstUnlocated(ms[1..])]));
          r
  }

  /** The index document: declaration, `<sitemapindex>`, each member's entry
      in order, `</sitemapindex>`; or, when some member has no location, the
      text written up to the `<sitemap>` of the first such member and an
      exception, with the closing tag never written. */
  function Render(idx: SitemapIndex, w: Writer): (r: Rendered)
    ensures r.Done? <==> AllLocated(idx.sitemaps)
    ensures r.Done? ==>
              r.out.text == w.text + XmlDeclaration + IndexStart + EntriesText(idx.sitemaps) + IndexEnd
    ensures r.Aborted? ==> r.failure == IllegalArgument(MissingLocation)
    ensures r.Aborted? ==>
              r.out.text == w.text + XmlDeclaration + IndexStart
                            + EntriesText(idx.sitemaps[..FirstUnlocated(idx.sitemaps)]) + EntryStart
  {
    var w1 := w.Write(XmlDeclaration).Write(IndexStart);
    match RenderEntries(idx.sitemaps, w1)
    case Aborted(out, failure) => Aborted(out, failure)
    case Done(w2) => Done(w2.Write(IndexEnd))
  }

  lemma EmptyRender(idx: SitemapIndex)
    requires idx.sitemaps == []
    ensures Render(idx, Writer([])).Done?
    ensures Render(idx, Writer([])).out.text ==
      "<?xml version=\"1.0\" encoding=\"UTF-8\"?>"
      + "<sitemapindex xmlns=\"http://www.sitemaps.org/schemas/sitemap/0.9\">"
      + "</sitemapindex>"
  {
    var t := Render(idx, Writer([])).out.text;
    assert EntriesText(idx.sitemaps) == [];
    assert t == [] + XmlDeclaration + IndexStart + [] + IndexEnd;
    assert [] + XmlDeclaration == XmlDeclaration;
    assert XmlDeclaration + IndexStart + [] == XmlDeclaration + IndexStart;
  }
}
