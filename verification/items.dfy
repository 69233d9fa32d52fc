/** One `<url>` entry of a sitemap (the source's Item). */
module Items {
  import opened Options
  import opened Uris
  import opened Dates
  import opened Frequencies
  import opened Priorities
  import opened Writers
  import opened Markup

  const UrlStart := "<url>"
  const UrlEnd := "</url>"

  /** The text of a priority, as the platform's float-to-string conversion
      produces it; that conversion is outside the model. */
  type PriorityText = Priority -> string

  datatype Item = Item(
    location: Uri,
    lastMod: Option<CalendarDate>,
    frequency: Option<ModificationFrequency>,
    priority: Priority)

  /** A new item at `location`: no date, no frequency, default priority. */
  function New(location: Uri): (it: Item)
    ensures it.location == location
    ensures it.lastMod.None? && it.frequency.None?
    ensures it.priority == DefaultPriority
  {
    Item(location, None, None, DefaultPriority)
  }

  /** Sets (or, with None, clears) the last-modification day. */
  function SetLastmod(it: Item, mod: Option<CalendarDate>): (r: Item)
    ensures r.lastMod == mod
    ensures r.location == it.location && r.frequency == it.frequency && r.priority == it.priority
  {
    it.(lastMod := mod)
  }

  /** Sets (or, with None, clears) the change frequency. */
  function SetModificationFrequency(it: Item, freq: Option<ModificationFrequency>): (r: Item)
    ensures r.frequency == freq
    ensures r.location == it.location && r.lastMod == it.lastMod && r.priority == it.priority
  {
    it.(frequency := freq)
  }

  /** Stores `p` clamped into [0.0, 1.0]; out-of-range values are not errors. */
  function SetPriority(it: Item, p: real): (r: Item)
    ensures MinPriority <= r.priority <= MaxPriority
    ensures r.priority == Max(MinPriority, Min(MaxPriority, p))
    ensures MinPriority <= p <= MaxPriority ==> r.priority == p
    ensures r.location == it.location && r.lastMod == it.lastMod && r.frequency == it.frequency
  {
    it.(priority := Clamp(p))
  }

  /** `<loc>` element: the location verbatim, without escaping. */
  function LocElement(location: Uri): string {
    Element("loc", location)
  }

  function LastmodElement(mod: Option<CalendarDate>): string {
    if mod.Some? then Element("lastmod", Format(mod.value)) else ""
  }

  function FrequencyElement(freq: Option<ModificationFrequency>): string {
    if freq.Some? then Element("changefreq", Name(freq.value)) else ""
  }

  function PriorityElement(p: Priority, show: PriorityText): string {
    if p != DefaultPriority then Element("priority", show(p)) else ""
  }

  /** The characters one render of `it` writes: `<loc>` always, then
      `<lastmod>`, `<changefreq>` and `<priority>` each when present, in that
      order. The priority counts as present when it differs from the default. */
  function Text(it: Item, show: PriorityText): string {
    UrlStart + LocElement(it.location) + LastmodElement(it.lastMod)
      + FrequencyElement(it.frequency) + PriorityElement(it.priority, show) + UrlEnd
  }

  /** Writes the `<url>` element through `w`, one write per element. */
  function Render(it: Item, show: PriorityText, w: Writer): (r: Writer)
    ensures r.text == w.text + Text(it, show)
  {
    var loc := LocElement(it.location);
    var mod := LastmodElement(it.lastMod);
    var freq := FrequencyElement(it.frequency);
    var prio := PriorityElement(it.priority, show);
    var w1 := w.Write(UrlStart).Write(loc);
    var w2 := if it.lastMod.Some? then w1.Write(mod) else w1;
    var w3 := if it.frequency.Some? then w2.Write(freq) else w2;
    var w4 := if it.priority != DefaultPriority then w3.Write(prio) else w3;
    var r := w4.Write(UrlEnd);
    assert r.text == w.text + UrlStart + loc + mod + freq + prio + UrlEnd;
    AppendAssociates(w.text, UrlStart, loc);
    AppendAssociates(w.text, UrlStart + loc, mod);
    AppendAssociates(w.text, UrlStart + loc + mod, freq);
    AppendAssociates(w.text, UrlStart + loc + mod + freq, prio);
    AppendAssociates(w.text, UrlStart + loc + mod + freq + prio, UrlEnd);
    r
  }

  /** Every rendering opens with `<url><loc>`, the location and `</loc>`,
      and closes with `</url>`. */
  lemma TextFrame(it: Item, show: PriorityText)
    ensures UrlStart + LocElement(it.location) <= Text(it, show)
    ensures |Text(it, show)| >= |UrlStart + LocElement(it.location)| + |UrlEnd|
    ensures Text(it, show)[|Text(it, show)| - |UrlEnd|..] == UrlEnd
  {
    var t := Text(it, show);
    var loc := LocElement(it.location);
    var mod := LastmodElement(it.lastMod);
    var freq := FrequencyElement(it.frequency);
    var prio := PriorityElement(it.priority, show);
    var head := UrlStart + loc;
    var middle := mod + freq + prio;
    assert t == head + middle + UrlEnd by {
      AppendAssociates(head, mod, freq);
      AppendAssociates(head, mod + freq, prio);
    }
    assert t[..|head|] == head;
    assert t[|t| - |UrlEnd|..] == UrlEnd;
  }

}
