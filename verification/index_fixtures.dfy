/** The repository's sitemap index test scenarios, stated over the model.
    As in `Fixtures`, expected documents are written one element per piece,
    `""` standing for an element that is absent. */
module IndexFixtures {
  import opened Options
  import opened Writers
  import opened Items
  import opened Sitemaps
  import opened SitemapIndexes
  import opened Fixtures

  /** The first sitemap of the index test: located, dated, one item. */
  function TestingSitemap(): Sitemap {
    SetLastModification(Sitemaps.Add(At(Some("http://www.testing.com/sitemap")), Supnig()).0, Some(Birthday))
  }

  /** The second sitemap of the index test: location set afterwards, no date. */
  function Testing2Sitemap(): Sitemap {
    Sitemaps.Add(SetLocation(Sitemaps.Empty(), Some("http://www.testing2.com/sitemap")), Google()).0
  }

  function TwoSitemapIndex(): SitemapIndex {
    SitemapIndexes.Add(SitemapIndexes.Add(SitemapIndexes.Empty(), TestingSitemap()).0, Testing2Sitemap()).0
  }

  lemma TwoEntriesText(a: Sitemap, b: Sitemap)
    requires a.location.Some? && b.location.Some?
    ensures AllLocated([a, b])
    ensures EntriesText([a, b]) == EntryText(a.location.value, a.lastMod) + EntryText(b.location.value, b.lastMod)
  {
    var ta, tb := EntryText(a.location.value, a.lastMod), EntryText(b.location.value, b.lastMod);
    assert [a, b][1..] == [b];
    assert [b][1..] == [];
    assert EntriesText([b]) == tb + [] == tb;
  }

  lemma TestingEntry()
    ensures EntryText("http://www.testing.com/sitemap", Some(Birthday)) ==
      "<sitemap>" + ("<loc>" + "http://www.testing.com/sitemap" + "</loc>")
      + ("<lastmod>" + "1985-10-22" + "</lastmod>") + "</sitemap>"
  {
    BirthdayElement();
    LocText("http://www.testing.com/sitemap");
  }

  lemma TwoMemberIndex(idx: SitemapIndex, a: Sitemap, b: Sitemap)
    requires idx.sitemaps == [a, b] && a.location.Some? && b.location.Some?
    ensures SitemapIndexes.Render(idx, Writer([])).Done?
    ensures SitemapIndexes.Render(idx, Writer([])).out.text ==
      XmlDeclaration + IndexStart + EntryText(a.location.value, a.lastMod)
      + EntryText(b.location.value, b.lastMod) + IndexEnd
  {
    TwoEntriesText(a, b);
    var ta, tb := EntryText(a.location.value, a.lastMod), EntryText(b.location.value, b.lastMod);
    assert SitemapIndexes.Render(idx, Writer([])).out.text ==
      [] + XmlDeclaration + IndexStart + (ta + tb) + IndexEnd;
    assert [] + XmlDeclaration == XmlDeclaration;
    AppendAssociates(XmlDeclaration + IndexStart, ta, tb);
  }

  lemma Testing2Entry()
    ensures EntryText("http://www.testing2.com/sitemap", None) ==
      "<sitemap>" + ("<loc>" + "http://www.testing2.com/sitemap" + "</loc>") + "" + "</sitemap>"
  {
    LocText("http://www.testing2.com/sitemap");
  }

  /** The index test: both sitemaps rendered as entries, in insertion order;
      their items are not written. */
  lemma IndexDocument()
    ensures SitemapIndexes.Render(TwoSitemapIndex(), Writer([])).Done?
    ensures SitemapIndexes.Render(TwoSitemapIndex(), Writer([])).out.text ==
      "<?xml version=\"1.0\" encoding=\"UTF-8\"?>"
      + "<sitemapindex xmlns=\"http://www.sitemaps.org/schemas/sitemap/0.9\">"
      + ("<sitemap>" + ("<loc>" + "http://www.testing.com/sitemap" + "</loc>")
         + ("<lastmod>" + "1985-10-22" + "</lastmod>") + "</sitemap>")
      + ("<sitemap>" + ("<loc>" + "http://www.testing2.com/sitemap" + "</loc>") + "" + "</sitemap>")
      + "</sitemapindex>"
  {
    var a, b := TestingSitemap(), Testing2Sitemap();
    assert a.location == Some("http://www.testing.com/sitemap") && a.lastMod == Some(Birthday);
    assert b.location == Some("http://www.testing2.com/sitemap") && b.lastMod == None;
    assert TwoSitemapIndex().sitemaps == [a, b];
    TwoMemberIndex(TwoSitemapIndex(), a, b);
    TestingEntry();
    Testing2Entry();
  }

  /** The missing-location test: the only member has no location, so the
      render throws the argument error after writing `<sitemap>`. */
  lemma MissingLocationAborts()
    ensures var idx := SitemapIndexes.Add(SitemapIndexes.Empty(), Sitemaps.Add(Sitemaps.Empty(), Supnig()).0).0;
            var r := SitemapIndexes.Render(idx, Writer([]));
            && r.Aborted?
            && r.failure == IllegalArgument(MissingLocation)
            && r.out.text ==
               "<?xml version=\"1.0\" encoding=\"UTF-8\"?>"
               + "<sitemapindex xmlns=\"http://www.sitemaps.org/schemas/sitemap/0.9\">"
               + "<sitemap>"
  {
    var sm := Sitemaps.Add(Sitemaps.Empty(), Supnig()).0;
    var idx := SitemapIndexes.Add(SitemapIndexes.Empty(), sm).0;
    assert idx.sitemaps == [sm];
    assert !AllLocated(idx.sitemaps);
    assert FirstUnlocated(idx.sitemaps) == 0;
    assert idx.sitemaps[..0] == [];
    assert SitemapIndexes.Render(idx, Writer([])).out.text ==
      [] + XmlDeclaration + IndexStart + [] + EntryStart;
    assert [] + XmlDeclaration == XmlDeclaration;
    assert XmlDeclaration + IndexStart + [] == XmlDeclaration + IndexStart;
  }
}
