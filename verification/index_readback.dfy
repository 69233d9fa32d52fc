/** Reading sitemap index documents back: the partner of the index
    renderer, and the proof that an index render that throws never leaves a
    complete document. */
module IndexReadback {
  import opened Options
  import opened Uris
  import opened Dates
  import opened Writers
  import opened Items
  import opened Sitemaps
  import opened SitemapIndexes
  import opened Readback

  /** What a `<sitemap>` entry of an index says about its sitemap. */
  datatype EntryView = EntryView(location: string, lastMod: Option<Date>)

  /** Reads the elements of one `<sitemap>` entry: location, optional date. */
  function ReadEntryFields(s: string): (r: Option<((string, Option<string>), string)>)
    ensures r.Some? ==> |r.value.1| < |s|
  {
    var s1 :- Skip(EntryStart, s);
    var loc :- ReadElement("loc", s1);
    var mod :- ReadOptional("lastmod", loc.1);
    var rest :- Skip(EntryEnd, mod.1);
    Some(((loc.0, mod.0), rest))
  }

  function DecodeEntry(s: string): (r: Option<(EntryView, string)>)
    ensures r.Some? ==> |r.value.1| < |s|
  {
    var raw :- ReadEntryFields(s);
    var day :- ReadDay(raw.0.1);
    Some((EntryView(raw.0.0, day), raw.1))
  }

  /** Reads `<sitemap>` entries up to a final `</sitemapindex>`. */
  function DecodeEntries(s: string): Option<seq<EntryView>>
    decreases |s|
  {
    if s == IndexEnd then
      Some([])
    else
      var e :- DecodeEntry(s);
      var es :- DecodeEntries(e.1);
      Some([e.0] + es)
  }

  /** Reads a whole sitemap index document. */
  function DecodeIndex(s: string): Option<seq<EntryView>> {
    var body :- Skip(XmlDeclaration + IndexStart, s);
    DecodeEntries(body)
  }

  function EntryViewsOf(ms: seq<Sitemap>): (vs: seq<EntryView>)
    requires AllLocated(ms)
    ensures |vs| == |ms|
    ensures forall i | 0 <= i < |ms| :: vs[i] == EntryView(ms[i].location.value, ms[i].lastMod)
  {
    if ms == [] then [] else [EntryView(ms[0].location.value, ms[0].lastMod)] + EntryViewsOf(ms[1..])
  }

  lemma ReadEntryFieldsFrom(location: Uri, mod: string, rest: string, m: Option<string>)
    requires ReadOptional("lastmod", mod + (EntryEnd + rest)) == Some((m, EntryEnd + rest))
    ensures ReadEntryFields(EntryStart + (LocElement(location) + (mod + (EntryEnd + rest))))
            == Some(((location, m), rest))
  {
    var t1 := mod + (EntryEnd + rest);
    var t0 := LocElement(location) + t1;
    assert Skip(EntryStart, EntryStart + t0) == Some(t0);
    ReadLoc(location, t1);
    assert Skip(EntryEnd, EntryEnd + rest) == Some(rest);
  }

  lemma EntryRoundTrip(location: Uri, mod: Option<CalendarDate>, rest: string)
    ensures DecodeEntry(EntryText(location, mod) + rest) == Some((EntryView(location, mod), rest))
  {
    var loc := LocElement(location);
    var lm := LastmodElement(mod);
    var t1 := lm + (EntryEnd + rest);
    var rm := ReadOptional("lastmod", t1);
    assert rm.Some? && rm.value.1 == EntryEnd + rest && ReadDay(rm.value.0) == Some(mod) by {
      ReadLastmod(mod, EntryEnd + rest);
    }
    ReadEntryFieldsFrom(location, lm, rest, rm.value.0);
    assert EntryText(location, mod) + rest == EntryStart + (loc + t1) by {
      AppendAssociates(EntryStart + loc + lm, EntryEnd, rest);
      AppendAssociates(EntryStart + loc, lm, EntryEnd + rest);
      AppendAssociates(EntryStart, loc, t1);
    }
  }

  lemma {:induction false} EntriesRoundTrip(ms: seq<Sitemap>)
    requires AllLocated(ms)
    ensures DecodeEntries(EntriesText(ms) + IndexEnd) == Some(EntryViewsOf(ms))
  {
    if ms == [] {
      assert EntriesText(ms) + IndexEnd == IndexEnd;
    } else {
      var first := EntryText(ms[0].location.value, ms[0].lastMod);
      var rest := EntriesText(ms[1..]) + IndexEnd;
      var s := EntriesText(ms) + IndexEnd;
      AppendAssociates(first, EntriesText(ms[1..]), IndexEnd);
      assert s == first + rest;
      assert s[1] == EntryStart[1];
      assert s != IndexEnd;
      EntryRoundTrip(ms[0].location.value, ms[0].lastMod, rest);
      EntriesRoundTrip(ms[1..]);
      assert EntryViewsOf(ms) ==
        [EntryView(ms[0].location.value, ms[0].lastMod)] + EntryViewsOf(ms[1..]);
    }
  }

  /** An index whose members all have locations renders completely, and the
      document reads back as each member's location and date, in order. */
  lemma IndexRoundTrip(idx: SitemapIndex)
    requires AllLocated(idx.sitemaps)
    ensures SitemapIndexes.Render(idx, Writer([])).Done?
    ensures DecodeIndex(SitemapIndexes.Render(idx, Writer([])).out.text) == Some(EntryViewsOf(idx.sitemaps))
  {
    var text := SitemapIndexes.Render(idx, Writer([])).out.text;
    var head := XmlDeclaration + IndexStart;
    var body := EntriesText(idx.sitemaps) + IndexEnd;
    assert text == head + body by {
      assert text == [] + XmlDeclaration + IndexStart + EntriesText(idx.sitemaps) + IndexEnd;
      assert [] + XmlDeclaration == XmlDeclaration;
      AppendAssociates(head, EntriesText(idx.sitemaps), IndexEnd);
    }
    assert Skip(head, text) == Some(body);
    EntriesRoundTrip(idx.sitemaps);
  }

  lemma {:induction false} EntriesThenOpenTag(ms: seq<Sitemap>)
    requires AllLocated(ms)
    ensures DecodeEntries(EntriesText(ms) + EntryStart) == None
  {
    var s := EntriesText(ms) + EntryStart;
    if ms == [] {
      assert s == EntryStart;
      assert s[1] != IndexEnd[1];
      assert Skip(EntryStart, s) == Some([]);
    } else {
      var first := EntryText(ms[0].location.value, ms[0].lastMod);
      var rest := EntriesText(ms[1..]) + EntryStart;
      AppendAssociates(first, EntriesText(ms[1..]), EntryStart);
      assert s == first + rest;
      assert s[1] == EntryStart[1];
      assert s != IndexEnd;
      EntryRoundTrip(ms[0].location.value, ms[0].lastMod, rest);
      EntriesThenOpenTag(ms[1..]);
    }
  }

  /** When a member has no location, the render throws, and what it wrote
      does not read as a sitemap index: there is no partial success. */
  lemma AbortedIndexIsIncomplete(idx: SitemapIndex)
    requires !AllLocated(idx.sitemaps)
    ensures SitemapIndexes.Render(idx, Writer([])).Aborted?
    ensures DecodeIndex(SitemapIndexes.Render(idx, Writer([])).out.text) == None
  {
    var k := FirstUnlocated(idx.sitemaps);
    var done := idx.sitemaps[..k];
    var text := SitemapIndexes.Render(idx, Writer([])).out.text;
    var head := XmlDeclaration + IndexStart;
    var body := EntriesText(done) + EntryStart;
    assert text == head + body by {
      assert text == [] + XmlDeclaration + IndexStart + EntriesText(done) + EntryStart;
      assert [] + XmlDeclaration == XmlDeclaration;
      AppendAssociates(head, EntriesText(done), EntryStart);
    }
    assert Skip(head, text) == Some(body);
    EntriesThenOpenTag(done);
  }
}
