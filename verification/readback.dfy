/** Reading rendered documents back. Each reader is the inverse of one
    renderer; the round-trip lemmas show that every rendering holds the
    fields it carries, and no others, in the protocol's element order. The
    priority is carried only as `show(p)`, and only when it is not 0.5. */
module Readback {
  import opened Options
  import opened Uris
  import opened Dates
  import opened Frequencies
  import opened Priorities
  import opened Writers
  import opened Items
  import opened Sitemaps
  import opened Markup

  /** Length of the character data before the first '<'. */
  function TextLength(s: string): (n: nat)
    ensures n <= |s|
  {
    if s == [] || s[0] == '<' then 0 else 1 + TextLength(s[1..])
  }

  lemma {:induction false} TextLengthOf(body: string, rest: string)
    requires NoMarkup(body)
    requires rest != [] && rest[0] == '<'
    ensures TextLength(body + rest) == |body|
  {
    if body != [] {
      assert (body + rest)[1..] == body[1..] + rest;
      TextLengthOf(body[1..], rest);
    } else {
      assert body + rest == rest;
    }
  }

  /** `s` without its literal prefix `p`. */
  function Skip(p: string, s: string): (r: Option<string>)
    ensures r.Some? ==> |r.value| + |p| == |s|
  {
    if p <= s then Some(s[|p|..]) else None
  }

  /** Reads `<tag>text</tag>` where the text holds no '<'; yields the text
      and what follows the element. */
  function ReadElement(tag: string, s: string): (r: Option<(string, string)>)
    ensures r.Some? ==> |r.value.1| < |s|
  {
    var afterOpen :- Skip(Open(tag), s);
    var n := TextLength(afterOpen);
    var afterClose :- Skip(Close(tag), afterOpen[n..]);
    Some((afterOpen[..n], afterClose))
  }

  /** Reads `<tag>text</tag>` if the input opens with `<tag>`. */
  function ReadOptional(tag: string, s: string): (r: Option<(Option<string>, string)>)
    ensures r.Some? ==> |r.value.1| <= |s|
  {
    if Open(tag) <= s then
      var e :- ReadElement(tag, s);
      Some((Some(e.0), e.1))
    else
      Some((None, s))
  }

  function ReadDay(text: Option<string>): Option<Option<Date>> {
    if text.None? then Some(None) else (var d :- ParseDay(text.value); Some(Some(d)))
  }

  function ReadFrequency(text: Option<string>): Option<Option<ModificationFrequency>> {
    if text.None? then Some(None) else (var f :- ValueOf(text.value); Some(Some(f)))
  }

  lemma ReadElementOf(tag: string, body: string, rest: string)
    requires NoMarkup(body)
    ensures ReadElement(tag, Element(tag, body) + rest) == Some((body, rest))
  {
    var s := Open(tag) + (body + (Close(tag) + rest));
    assert Element(tag, body) + rest == s by {
      AppendAssociates(Open(tag) + body, Close(tag), rest);
      AppendAssociates(Open(tag), body, Close(tag) + rest);
    }
    var a := body + (Close(tag) + rest);
    assert s[|Open(tag)|..] == a;
    TextLengthOf(body, Close(tag) + rest);
    assert a[..|body|] == body;
    assert a[|body|..] == Close(tag) + rest;
    assert (Close(tag) + rest)[|Close(tag)|..] == rest;
  }

  lemma Regroup(a: string, b: string, c: string, d: string, e: string, f: string, g: string)
    ensures a + b + c + d + e + f + g == a + (b + (c + (d + (e + (f + g)))))
  {
    AppendAssociates(e, f, g);
    AppendAssociates(d, e, f + g);
    AppendAssociates(c, d, e + (f + g));
    AppendAssociates(b, c, d + (e + (f + g)));
    AppendAssociates(a, b, c + (d + (e + (f + g))));
    AppendAssociates(a + b, c, d);
    AppendAssociates(a + b + c, d, e);
    AppendAssociates(a + b + c + d, e, f);
    AppendAssociates(a + b + c + d + e, f, g);
  }

  lemma ReadOptionalOf(tag: string, body: string, rest: string)
    requires NoMarkup(body)
    ensures ReadOptional(tag, Element(tag, body) + rest) == Some((Some(body), rest))
  {
    ReadElementOf(tag, body, rest);
    assert Open(tag) <= Element(tag, body) + rest;
  }

  lemma NotOpening(tag: string, s: string)
    requires |tag| >= 1 && |s| >= 2 && s[1] != tag[0]
    ensures !(Open(tag) <= s)
  {
    assert Open(tag)[1] == tag[0];
  }

  /** What a `<url>` element says about its item. */
  datatype UrlView = UrlView(
    location: string,
    lastMod: Option<Date>,
    frequency: Option<ModificationFrequency>,
    priority: Option<string>)

  /** The raw texts of a `<url>` element's children. */
  datatype UrlFields = UrlFields(
    location: string,
    lastMod: Option<string>,
    frequency: Option<string>,
    priority: Option<string>)

  /** Reads the elements of one `<url>` element, in the protocol's order. */
  function ReadUrlFields(s: string): (r: Option<(UrlFields, string)>)
    ensures r.Some? ==> |r.value.1| < |s|
  {
    var s1 :- Skip(UrlStart, s);
    var loc :- ReadElement("loc", s1);
    var mod :- ReadOptional("lastmod", loc.1);
    var freq :- ReadOptional("changefreq", mod.1);
    var prio :- ReadOptional("priority", freq.1);
    var rest :- Skip(UrlEnd, prio.1);
    Some((UrlFields(loc.0, mod.0, freq.0, prio.0), rest))
  }

  function InterpretUrl(f: UrlFields): Option<UrlView> {
    var day :- ReadDay(f.lastMod);
    var freq :- ReadFrequency(f.frequency);
    Some(UrlView(f.location, day, freq, f.priority))
  }

  /** Reads one `<url>` element; yields its fields and what follows it. */
  function DecodeUrl(s: string): (r: Option<(UrlView, string)>)
    ensures r.Some? ==> |r.value.1| < |s|
  {
    var raw :- ReadUrlFields(s);
    var view :- InterpretUrl(raw.0);
    Some((view, raw.1))
  }

  /** Reads `<url>` elements up to a final `</urlset>`. */
  function DecodeUrls(s: string): Option<seq<UrlView>>
    decreases |s|
  {
    if s == UrlsetEnd then
      Some([])
    else
      var u :- DecodeUrl(s);
      var us :- DecodeUrls(u.1);
      Some([u.0] + us)
  }

  /** Reads a whole standalone sitemap document. */
  function DecodeUrlset(s: string): Option<seq<UrlView>> {
    var body :- Skip(XmlDeclaration + UrlsetStart, s);
    DecodeUrls(body)
  }

  /** The fields an item's rendering is meant to carry: the priority only
      when it differs from the default. */
  function ViewOf(it: Item, show: PriorityText): UrlView {
    UrlView(it.location, it.lastMod, it.frequency,
            if it.priority != DefaultPriority then Some(show(it.priority)) else None)
  }

  function ViewsOf(items: seq<Item>, show: PriorityText): (vs: seq<UrlView>)
    ensures |vs| == |items|
    ensures forall i | 0 <= i < |items| :: vs[i] == ViewOf(items[i], show)
  {
    if items == [] then [] else [ViewOf(items[0], show)] + ViewsOf(items[1..], show)
  }

  lemma UriHasNoMarkup(u: Uri)
    ensures NoMarkup(u)
  {
    assert IsUriText(u);
  }

  /** Each optional element is either absent or starts with `<` and the
      first letter of its tag. */
  lemma SecondCharOfParts(it: Item, show: PriorityText, rest: string)
    ensures var tail := PriorityElement(it.priority, show) + (UrlEnd + rest);
            |tail| >= 2 && (tail[1] == 'p' || tail[1] == '/')
    ensures var tail := FrequencyElement(it.frequency) + (PriorityElement(it.priority, show) + (UrlEnd + rest));
            |tail| >= 2 && (tail[1] == 'c' || tail[1] == 'p' || tail[1] == '/')
  {
  }

  lemma ReadLoc(location: Uri, rest: string)
    ensures ReadElement("loc", LocElement(location) + rest) == Some((location, rest))
  {
    UriHasNoMarkup(location);
    ReadElementOf("loc", location, rest);
  }

  lemma ReadLastmodText(text: string, rest: string)
    requires NoMarkup(text)
    ensures ReadOptional("lastmod", Element("lastmod", text) + rest) == Some((Some(text), rest))
  {
    ReadOptionalOf("lastmod", text, rest);
  }

  lemma FormatHasNoMarkup(day: CalendarDate)
    ensures NoMarkup(Format(day))
  {
  }

  lemma ReadLastmod(mod: Option<CalendarDate>, rest: string)
    requires |rest| >= 2 && rest[1] != 'l'
    ensures var r := ReadOptional("lastmod", LastmodElement(mod) + rest);
            r.Some? && r.value.1 == rest && ReadDay(r.value.0) == Some(mod)
  {
    if mod.Some? {
      FormatHasNoMarkup(mod.value);
      ReadLastmodText(Format(mod.value), rest);
    } else {
      assert LastmodElement(mod) + rest == rest;
      NotOpening("lastmod", rest);
    }
  }

  lemma ReadChangefreq(freq: Option<ModificationFrequency>, rest: string)
    requires |rest| >= 2 && rest[1] != 'c'
    ensures var r := ReadOptional("changefreq", FrequencyElement(freq) + rest);
            r.Some? && r.value.1 == rest && ReadFrequency(r.value.0) == Some(freq)
  {
    if freq.Some? {
      var text := Name(freq.value);
      assert NoMarkup(text);
      ReadOptionalOf("changefreq", text, rest);
      NameRoundTrip(freq.value);
    } else {
      assert FrequencyElement(freq) + rest == rest;
      NotOpening("changefreq", rest);
    }
  }

  lemma ReadPriority(p: Priority, show: PriorityText, rest: string)
    requires NoMarkup(show(p))
    requires |rest| >= 2 && rest[1] != 'p'
    ensures ReadOptional("priority", PriorityElement(p, show) + rest) ==
            Some((if p != DefaultPriority then Some(show(p)) else None, rest))
  {
    if p != DefaultPriority {
      var text := show(p);
      ReadOptionalOf("priority", text, rest);
    } else {
      assert PriorityElement(p, show) + rest == rest;
      NotOpening("priority", rest);
    }
  }

  /** Reading a `<url>` element from its parts, whatever their texts. */
  lemma ReadUrlFieldsFrom(location: Uri, mod: string, freq: string, prio: string, rest: string,
                          m: Option<string>, f: Option<string>, p: Option<string>)
    requires ReadOptional("lastmod", mod + (freq + (prio + (UrlEnd + rest)))) == Some((m, freq + (prio + (UrlEnd + rest))))
    requires ReadOptional("changefreq", freq + (prio + (UrlEnd + rest))) == Some((f, prio + (UrlEnd + rest)))
    requires ReadOptional("priority", prio + (UrlEnd + rest)) == Some((p, UrlEnd + rest))
    ensures ReadUrlFields(UrlStart + (LocElement(location) + (mod + (freq + (prio + (UrlEnd + rest))))))
            == Some((UrlFields(location, m, f, p), rest))
  {
    var t1 := mod + (freq + (prio + (UrlEnd + rest)));
    var t0 := LocElement(location) + t1;
    assert Skip(UrlStart, UrlStart + t0) == Some(t0);
    ReadLoc(location, t1);
    assert Skip(UrlEnd, UrlEnd + rest) == Some(rest);
  }

  /** Decoding a `<url>` element from its parts, whatever their texts. */
  lemma DecodeUrlFrom(location: Uri, mod: string, freq: string, prio: string, rest: string,
                      m: Option<string>, f: Option<string>, p: Option<string>,
                      day: Option<Date>, frequency: Option<ModificationFrequency>)
    requires ReadOptional("lastmod", mod + (freq + (prio + (UrlEnd + rest)))) == Some((m, freq + (prio + (UrlEnd + rest))))
    requires ReadOptional("changefreq", freq + (prio + (UrlEnd + rest))) == Some((f, prio + (UrlEnd + rest)))
    requires ReadOptional("priority", prio + (UrlEnd + rest)) == Some((p, UrlEnd + rest))
    requires ReadDay(m) == Some(day) && ReadFrequency(f) == Some(frequency)
    ensures DecodeUrl(UrlStart + (LocElement(location) + (mod + (freq + (prio + (UrlEnd + rest))))))
            == Some((UrlView(location, day, frequency, p), rest))
  {
    ReadUrlFieldsFrom(location, mod, freq, prio, rest, m, f, p);
  }

  /** The three optional elements after `<loc>` each read back to their
      field and leave the input just past themselves. */
  lemma OptionalPartsRead(it: Item, show: PriorityText, rest: string)
    requires NoMarkup(show(it.priority))
    ensures var t4 := UrlEnd + rest;
            var t3 := PriorityElement(it.priority, show) + t4;
            var t2 := FrequencyElement(it.frequency) + t3;
            var rm := ReadOptional("lastmod", LastmodElement(it.lastMod) + t2);
            var rf := ReadOptional("changefreq", t2);
            && rm.Some? && rm.value.1 == t2 && ReadDay(rm.value.0) == Some(it.lastMod)
            && rf.Some? && rf.value.1 == t3 && ReadFrequency(rf.value.0) == Some(it.frequency)
            && ReadOptional("priority", t3) == Some((ViewOf(it, show).priority, t4))
  {
    var t4 := UrlEnd + rest;
    var t3 := PriorityElement(it.priority, show) + t4;
    var t2 := FrequencyElement(it.frequency) + t3;
    SecondCharOfParts(it, show, rest);
    assert |t4| >= 2 && t4[1] == '/';
    ReadLastmod(it.lastMod, t2);
    ReadChangefreq(it.frequency, t3);
    ReadPriority(it.priority, show, t4);
  }

  lemma DecodeUrlParts(it: Item, show: PriorityText, rest: string)
    requires NoMarkup(show(it.priority))
    ensures var t4 := UrlEnd + rest;
            var t3 := PriorityElement(it.priority, show) + t4;
            var t2 := FrequencyElement(it.frequency) + t3;
            var t1 := LastmodElement(it.lastMod) + t2;
            DecodeUrl(UrlStart + (LocElement(it.location) + t1)) == Some((ViewOf(it, show), rest))
  {
    var mod, freq, prio := LastmodElement(it.lastMod), FrequencyElement(it.frequency), PriorityElement(it.priority, show);
    var t2 := freq + (prio + (UrlEnd + rest));
    var rm := ReadOptional("lastmod", mod + t2);
    var rf := ReadOptional("changefreq", t2);
    var rp := ReadOptional("priority", prio + (UrlEnd + rest));
    OptionalPartsRead(it, show, rest);
    DecodeUrlFrom(it.location, mod, freq, prio, rest, rm.value.0, rf.value.0, rp.value.0,
                  it.lastMod, it.frequency);
  }


  lemma UrlRoundTrip(it: Item, show: PriorityText, rest: string)
    requires forall p: Priority :: NoMarkup(show(p))
    ensures DecodeUrl(Items.Text(it, show) + rest) == Some((ViewOf(it, show), rest))
  {
    var loc := LocElement(it.location);
    var mod := LastmodElement(it.lastMod);
    var freq := FrequencyElement(it.frequency);
    var prio := PriorityElement(it.priority, show);
    assert Items.Text(it, show) == UrlStart + loc + mod + freq + prio + UrlEnd;
    Regroup(UrlStart, loc, mod, freq, prio, UrlEnd, rest);
    DecodeUrlParts(it, show, rest);
  }

  lemma {:induction false} UrlsRoundTrip(items: seq<Item>, show: PriorityText)
    requires forall p: Priority :: NoMarkup(show(p))
    ensures DecodeUrls(ItemsText(items, show) + UrlsetEnd) == Some(ViewsOf(items, show))
  {
    if items == [] {
      assert ItemsText(items, show) + UrlsetEnd == UrlsetEnd;
    } else {
      var first := Items.Text(items[0], show);
      var rest := ItemsText(items[1..], show) + UrlsetEnd;
      var s := ItemsText(items, show) + UrlsetEnd;
      AppendAssociates(first, ItemsText(items[1..], show), UrlsetEnd);
      assert s == first + rest;
      Items.TextFrame(items[0], show);
      assert s[1] == UrlStart[1];
      assert s != UrlsetEnd;
      UrlRoundTrip(items[0], show, rest);
      UrlsRoundTrip(items[1..], show);
      assert ViewsOf(items, show) == [ViewOf(items[0], show)] + ViewsOf(items[1..], show);
    }
  }

  /** A standalone sitemap reads back as the fields of its items, in order. */
  lemma SitemapRoundTrip(sm: Sitemap, show: PriorityText)
    requires forall p: Priority :: NoMarkup(show(p))
    ensures DecodeUrlset(Sitemaps.Render(sm, show, Writer([])).text) == Some(ViewsOf(sm.items, show))
  {
    var text := Sitemaps.Render(sm, show, Writer([])).text;
    var head := XmlDeclaration + UrlsetStart;
    var body := ItemsText(sm.items, show) + UrlsetEnd;
    assert text == head + body by {
      assert text == [] + XmlDeclaration + UrlsetStart + ItemsText(sm.items, show) + UrlsetEnd;
      assert [] + XmlDeclaration == XmlDeclaration;
      AppendAssociates(head, ItemsText(sm.items, show), UrlsetEnd);
    }
    assert Skip(head, text) == Some(body);
    UrlsRoundTrip(sm.items, show);
  }
}
