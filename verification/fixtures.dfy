/** The repository's standalone sitemap test scenario, stated over the
    model. The test's instant 498844800000 ms is the day 1985-10-22 in UTC;
    the conversion from an instant to a day is not modelled, so the day is
    given directly.

    The expected documents below are written one element per piece, with
    `""` standing for an element the record does not carry, so that each
    piece lines up with one write of the renderer; one long literal per
    document would make the prover compare it character by character. */
module Fixtures {
  import opened Options
  import opened Uris
  import opened Dates
  import opened Frequencies
  import opened Priorities
  import opened Writers
  import opened Items
  import opened Sitemaps
  import opened Markup

  const Birthday: CalendarDate := Date(1985, 10, 22)

  lemma BirthdayText()
    ensures Format(Birthday) == "1985-10-22"
  {
    assert Decimal(1) == "1";
    assert Decimal(19) == "19";
    assert Decimal(198) == "198";
    assert Decimal(1985) == "1985";
    assert Decimal(10) == "10";
    assert Decimal(22) == "22";
    assert Padded(1985, 4) == "1985";
    assert Padded(10, 2) == "10";
    assert Padded(22, 2) == "22";
  }

  function Supnig(): Item {
    SetPriority(SetModificationFrequency(SetLastmod(New("http://www.supnig.com"), Some(Birthday)), Some(Daily)), 0.5)
  }

  function Google(): Item {
    SetPriority(SetModificationFrequency(SetLastmod(New("http://www.google.com"), Some(Birthday)), Some(Hourly)), 2.0)
  }

  function Github(): Item {
    New("http://www.github.com")
  }

  /** An item's text from the texts of its elements. */
  lemma TextFromParts(it: Item, show: PriorityText, loc: string, mod: string, freq: string, prio: string)
    requires LocElement(it.location) == loc && LastmodElement(it.lastMod) == mod
    requires FrequencyElement(it.frequency) == freq && PriorityElement(it.priority, show) == prio
    ensures Items.Text(it, show) == UrlStart + loc + mod + freq + prio + UrlEnd
  {
  }

  /** The tags' opening and closing texts. */
  lemma TagTexts()
    ensures Open("loc") == "<loc>" && Close("loc") == "</loc>"
    ensures Open("lastmod") == "<lastmod>" && Close("lastmod") == "</lastmod>"
    ensures Open("changefreq") == "<changefreq>" && Close("changefreq") == "</changefreq>"
    ensures Open("priority") == "<priority>" && Close("priority") == "</priority>"
  {
  }

  lemma LocText(location: Uri)
    ensures LocElement(location) == "<loc>" + location + "</loc>"
  {
    TagTexts();
  }

  lemma BirthdayElement()
    ensures LastmodElement(Some(Birthday)) == "<lastmod>" + "1985-10-22" + "</lastmod>"
  {
    BirthdayText();
    TagTexts();
  }

  lemma FrequencyText(f: ModificationFrequency)
    ensures FrequencyElement(Some(f)) == "<changefreq>" + Name(f) + "</changefreq>"
  {
    TagTexts();
  }

  lemma FullPriorityElement(show: PriorityText)
    requires show(1.0) == "1.0"
    ensures PriorityElement(1.0, show) == "<priority>" + "1.0" + "</priority>"
  {
    TagTexts();
  }

  lemma SupnigText(show: PriorityText)
    ensures Items.Text(Supnig(), show) ==
      "<url>" + ("<loc>" + "http://www.supnig.com" + "</loc>") + ("<lastmod>" + "1985-10-22" + "</lastmod>")
      + ("<changefreq>" + "daily" + "</changefreq>") + "" + "</url>"
  {
    var it := Supnig();
    assert it == Item("http://www.supnig.com", Some(Birthday), Some(Daily), 0.5);
    BirthdayElement();
    LocText(it.location);
    FrequencyText(Daily);
    TextFromParts(it, show, "<loc>" + "http://www.supnig.com" + "</loc>", "<lastmod>" + "1985-10-22" + "</lastmod>",
                  "<changefreq>" + "daily" + "</changefreq>", "");
  }

  lemma GoogleText(show: PriorityText)
    requires show(1.0) == "1.0"
    ensures Items.Text(Google(), show) ==
      "<url>" + ("<loc>" + "http://www.google.com" + "</loc>") + ("<lastmod>" + "1985-10-22" + "</lastmod>")
      + ("<changefreq>" + "hourly" + "</changefreq>") + ("<priority>" + "1.0" + "</priority>") + "</url>"
  {
    var it := Google();
    assert it == Item("http://www.google.com", Some(Birthday), Some(Hourly), 1.0);
    BirthdayElement();
    LocText(it.location);
    FrequencyText(Hourly);
    FullPriorityElement(show);
    TextFromParts(it, show, "<loc>" + "http://www.google.com" + "</loc>", "<lastmod>" + "1985-10-22" + "</lastmod>",
                  "<changefreq>" + "hourly" + "</changefreq>", "<priority>" + "1.0" + "</priority>");
  }

  lemma GithubText(show: PriorityText)
    ensures Items.Text(Github(), show) ==
      "<url>" + ("<loc>" + "http://www.github.com" + "</loc>") + "" + "" + "" + "</url>"
  {
    var it := Github();
    assert it == Item("http://www.github.com", None, None, 0.5);
    LocText(it.location);
    TextFromParts(it, show, "<loc>" + "http://www.github.com" + "</loc>", "", "", "");
  }

  /** The sitemap of the standalone test: three items added in order. */
  function ThreeItemSitemap(): (sm: Sitemap)
    ensures sm.items == [Supnig(), Google(), Github()]
  {
    Sitemaps.Add(Sitemaps.Add(Sitemaps.Add(Sitemaps.Empty(), Supnig()).0, Google()).0, Github()).0
  }

  lemma ThreeItemsText(a: Item, b: Item, c: Item, show: PriorityText)
    ensures ItemsText([a, b, c], show) == Items.Text(a, show) + Items.Text(b, show) + Items.Text(c, show)
  {
    var ta, tb, tc := Items.Text(a, show), Items.Text(b, show), Items.Text(c, show);
    assert [a, b, c][1..] == [b, c];
    assert [b, c][1..] == [c];
    assert [c][1..] == [];
    assert ItemsText([c], show) == tc + [] == tc;
    assert ItemsText([b, c], show) == tb + tc;
    assert ItemsText([a, b, c], show) == ta + (tb + tc);
    AppendAssociates(ta, tb, tc);
  }

  /** A sitemap of three items renders as the declaration, `<urlset>`, the
      three item texts in order and `</urlset>`, whatever those texts are. */
  lemma ThreeItemDocument(sm: Sitemap, show: PriorityText, ta: string, tb: string, tc: string)
    requires |sm.items| == 3
    requires Items.Text(sm.items[0], show) == ta
    requires Items.Text(sm.items[1], show) == tb
    requires Items.Text(sm.items[2], show) == tc
    ensures Sitemaps.Render(sm, show, Writer([])).text == XmlDeclaration + UrlsetStart + ta + tb + tc + UrlsetEnd
  {
    assert sm.items == [sm.items[0], sm.items[1], sm.items[2]];
    ThreeItemsText(sm.items[0], sm.items[1], sm.items[2], show);
    assert [] + XmlDeclaration == XmlDeclaration;
    AppendAssociates(XmlDeclaration + UrlsetStart, ta + tb, tc);
    AppendAssociates(XmlDeclaration + UrlsetStart, ta, tb);
  }

  /** The standalone test: the declaration, `<urlset>`, the three items in
      insertion order with the default priority left out and 2.0 clamped to
      1.0, then `</urlset>`. */
  lemma StandaloneSitemapDocument(show: PriorityText)
    requires show(1.0) == "1.0"
    ensures Sitemaps.Render(ThreeItemSitemap(), show, Writer([])).text ==
      "<?xml version=\"1.0\" encoding=\"UTF-8\"?>"
      + "<urlset xmlns=\"http://www.sitemaps.org/schemas/sitemap/0.9\">"
      + ("<url>" + ("<loc>" + "http://www.supnig.com" + "</loc>") + ("<lastmod>" + "1985-10-22" + "</lastmod>")
         + ("<changefreq>" + "daily" + "</changefreq>") + "" + "</url>")
      + ("<url>" + ("<loc>" + "http://www.google.com" + "</loc>") + ("<lastmod>" + "1985-10-22" + "</lastmod>")
         + ("<changefreq>" + "hourly" + "</changefreq>") + ("<priority>" + "1.0" + "</priority>") + "</url>")
      + ("<url>" + ("<loc>" + "http://www.github.com" + "</loc>") + "" + "" + "" + "</url>")
      + "</urlset>"
  {
    var sm := ThreeItemSitemap();
    SupnigText(show);
    GoogleText(show);
    GithubText(show);
    ThreeItemDocument(sm, show,
      "<url>" + ("<loc>" + "http://www.supnig.com" + "</loc>") + ("<lastmod>" + "1985-10-22" + "</lastmod>")
      + ("<changefreq>" + "daily" + "</changefreq>") + "" + "</url>",
      "<url>" + ("<loc>" + "http://www.google.com" + "</loc>") + ("<lastmod>" + "1985-10-22" + "</lastmod>")
      + ("<changefreq>" + "hourly" + "</changefreq>") + ("<priority>" + "1.0" + "</priority>") + "</url>",
      "<url>" + ("<loc>" + "http://www.github.com" + "</loc>") + "" + "" + "" + "</url>");
  }
}
