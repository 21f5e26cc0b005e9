/**
 * The scrollspy of the personal page (script.js:71-125): the navigation links are a fixed
 * array of records, and every batch of visibility entries delivered by the browser's
 * IntersectionObserver moves the "navigation__link--active" mark onto the link whose href
 * is "#" followed by the id of the section that became visible.
 *
 * The specification side is a left fold, ApplyBatch, over the entries; the method
 * ObserverCallback is proved to compute it in place, and the lemmas below state what the
 * fold guarantees: stickiness, the last intersecting entry wins, at most one link active,
 * a missing link clears everything, and idempotence.
 */
module Scrollspy {
  import opened Wrappers

  /** One element of `navLinks`: its href attribute and whether it carries the active class. */
  datatype NavLink = NavLink(href: string, active: bool)

  /** One IntersectionObserverEntry, reduced to the id of its target section and whether the
      section is intersecting at the observer's threshold. */
  datatype Entry = Entry(sectionId: string, isIntersecting: bool)

  /** The href a link must carry to belong to section `id`. */
  function LinkHref(id: string): string
  {
    "#" + id
  }

  /** The same links in the same order, whatever their active flags. */
  predicate SameHrefs(a: seq<NavLink>, b: seq<NavLink>)
  {
    |a| == |b| && forall i :: 0 <= i < |a| ==> a[i].href == b[i].href
  }

  /** No two links are active at once. */
  predicate AtMostOneActive(links: seq<NavLink>)
  {
    forall i, j :: 0 <= i < j < |links| ==> !(links[i].active && links[j].active)
  }

  /** The link `document.querySelector` returns for `.navigation__link[href="<href>"]`:
      the first one in document order whose href is exactly `href`, if any. */
  function FirstMatch(links: seq<NavLink>, href: string): (r: Option<nat>)
    ensures r.Some? ==> r.value < |links| && links[r.value].href == href
    ensures r.Some? ==> forall j :: 0 <= j < r.value ==> links[j].href != href
    ensures r.None? <==> forall j :: 0 <= j < |links| ==> links[j].href != href
  {
    if |links| == 0 then None
    else if links[0].href == href then Some(0)
    else
      match FirstMatch(links[1..], href)
      case None => None
      case Some(k) => Some(k + 1)
  }

  /** Every link with its active class removed. */
  function Cleared(links: seq<NavLink>): (r: seq<NavLink>)
  {
    seq(|links|, i requires 0 <= i < |links| => links[i].(active := false))
  }

  /** The effect of one intersecting entry for section `id`: clear every link, then mark the
      first link whose href is "#" + id. */
  function Highlight(links: seq<NavLink>, id: string): (r: seq<NavLink>)
    ensures SameHrefs(r, links)
    ensures forall i :: 0 <= i < |r| ==>
      (r[i].active <==>
        links[i].href == LinkHref(id) && forall j :: 0 <= j < i ==> links[j].href != LinkHref(id))
  {
    var cleared := Cleared(links);
    match FirstMatch(links, LinkHref(id))
    case None => cleared
    case Some(k) => cleared[k := cleared[k].(active := true)]
  }

  /** The effect of one entry: only an intersecting entry touches the links. */
  function Step(links: seq<NavLink>, entry: Entry): seq<NavLink>
  {
    if entry.isIntersecting then Highlight(links, entry.sectionId) else links
  }

  /** The effect of a whole batch, entry by entry in delivery order. */
  function ApplyBatch(links: seq<NavLink>, entries: seq<Entry>): seq<NavLink>
  {
    if entries == [] then links
    else Step(ApplyBatch(links, entries[..|entries| - 1]), entries[|entries| - 1])
  }

  /** The id of the last intersecting entry of a batch, if any: the section the batch
      decides for. */
  function LastIntersecting(entries: seq<Entry>): Option<string>
  {
    if entries == [] then None
    else if entries[|entries| - 1].isIntersecting then Some(entries[|entries| - 1].sectionId)
    else LastIntersecting(entries[..|entries| - 1])
  }

  /** Remove the active class from every link, in place (script.js:88-90). */
  method ClearActive(navLinks: array<NavLink>)
    modifies navLinks
    ensures navLinks[..] == Cleared(old(navLinks[..]))
  {
    for i := 0 to navLinks.Length
      invariant forall j :: 0 <= j < i ==> navLinks[j] == old(navLinks[j]).(active := false)
      invariant forall j :: i <= j < navLinks.Length ==> navLinks[j] == old(navLinks[j])
    {
      navLinks[i] := navLinks[i].(active := false);
    }
  }

  /** The lookup of script.js:93-95, scanning the links in document order. */
  method QueryLink(navLinks: array<NavLink>, href: string) returns (found: Option<nat>)
    ensures found == FirstMatch(navLinks[..], href)
  {
    for i := 0 to navLinks.Length
      invariant forall j :: 0 <= j < i ==> navLinks[j].href != href
    {
      if navLinks[i].href == href {
        return Some(i);
      }
    }
    return None;
  }

  /** The observer callback (script.js:81-103): process the entries in delivery order;
      each intersecting one clears every link and marks the matching one. */
  method ObserverCallback(navLinks: array<NavLink>, entries: seq<Entry>)
    modifies navLinks
    ensures navLinks[..] == ApplyBatch(old(navLinks[..]), entries)
  {
    for k := 0 to |entries|
      invariant navLinks[..] == ApplyBatch(old(navLinks[..]), entries[..k])
    {
      var entry := entries[k];
      assert entries[..k + 1][..k] == entries[..k];
      if entry.isIntersecting {
        ClearActive(navLinks);
        var activeLink := QueryLink(navLinks, LinkHref(entry.sectionId));
        if activeLink.Some? {
          navLinks[activeLink.value] := navLinks[activeLink.value].(active := true);
        }
      }
    }
    assert entries[..|entries|] == entries;
  }

  /** The setup of script.js:107-124: the sections the observer is told to watch. Nothing
      is watched unless there is at least one section and at least one link. */
  method StartScrollspy(sections: seq<string>, navLinks: array<NavLink>) returns (watched: seq<string>)
    ensures sections != [] && navLinks.Length > 0 ==> watched == sections
    ensures sections == [] || navLinks.Length == 0 ==> watched == []
  {
    watched := [];
    if |sections| > 0 && navLinks.Length > 0 {
      for i := 0 to |sections|
        invariant watched == sections[..i]
      {
        watched := watched + [sections[i]];
      }
      assert sections[..|sections|] == sections;
    }
  }

  // ---------------------------------------------------------------------------------------
  // Properties of the batch semantics

  /** The lookup depends on the hrefs alone, never on the active flags. */
  lemma FirstMatchIgnoresFlags(a: seq<NavLink>, b: seq<NavLink>, href: string)
    requires SameHrefs(a, b)
    ensures FirstMatch(a, href) == FirstMatch(b, href)
  {
  }

  /** A later intersecting entry overwrites whatever an earlier one marked. */
  lemma HighlightOverwrites(links: seq<NavLink>, a: string, b: string)
    ensures Highlight(Highlight(links, a), b) == Highlight(links, b)
  {
  }

  /** Processing the same intersecting entry twice gives the state of processing it once. */
  lemma HighlightIdempotent(links: seq<NavLink>, id: string)
    ensures Highlight(Highlight(links, id), id) == Highlight(links, id)
  {
  }

  /** A batch split in two is processed as its first part followed by its second. */
  lemma {:induction false} ApplyBatchAppend(links: seq<NavLink>, a: seq<Entry>, b: seq<Entry>)
    ensures ApplyBatch(links, a + b) == ApplyBatch(ApplyBatch(links, a), b)
  {
    if b == [] {
      assert a + b == a;
    } else {
      assert (a + b)[..|a + b| - 1] == a + b[..|b| - 1];
      ApplyBatchAppend(links, a, b[..|b| - 1]);
    }
  }

  /** Anywhere in a batch, an entry delivered twice in a row acts as if delivered once. */
  lemma RepeatedEntryIdempotent(links: seq<NavLink>, pre: seq<Entry>, e: Entry, post: seq<Entry>)
    ensures ApplyBatch(links, pre + [e, e] + post) == ApplyBatch(links, pre + [e] + post)
  {
    var before := ApplyBatch(links, pre);
    ApplyBatchAppend(links, pre + [e, e], post);
    ApplyBatchAppend(links, pre, [e, e]);
    ApplyBatchAppend(links, pre + [e], post);
    ApplyBatchAppend(links, pre, [e]);
    assert [e, e][..1] == [e];
    if e.isIntersecting {
      HighlightIdempotent(before, e.sectionId);
    }
  }

  /** A batch with no intersecting entry leaves every link as it was: the mark is sticky. */
  lemma {:induction false} NonIntersectingBatchIsSticky(links: seq<NavLink>, entries: seq<Entry>)
    requires forall i :: 0 <= i < |entries| ==> !entries[i].isIntersecting
    ensures ApplyBatch(links, entries) == links
  {
    if entries != [] {
      NonIntersectingBatchIsSticky(links, entries[..|entries| - 1]);
    }
  }

  /** A batch leaves the hrefs alone. */
  lemma {:induction false} BatchKeepsHrefs(links: seq<NavLink>, entries: seq<Entry>)
    ensures SameHrefs(ApplyBatch(links, entries), links)
  {
    if entries != [] {
      BatchKeepsHrefs(links, entries[..|entries| - 1]);
    }
  }

  /** The last intersecting entry of the batch decides the outcome; earlier entries are
      overwritten, and without any intersecting entry nothing changes. */
  lemma {:induction false} LastIntersectingWins(links: seq<NavLink>, entries: seq<Entry>)
    ensures LastIntersecting(entries).None? ==> ApplyBatch(links, entries) == links
    ensures LastIntersecting(entries).Some? ==>
      ApplyBatch(links, entries) == Highlight(links, LastIntersecting(entries).value)
  {
    if entries != [] {
      var init, last := entries[..|entries| - 1], entries[|entries| - 1];
      LastIntersectingWins(links, init);
      if last.isIntersecting && LastIntersecting(init).Some? {
        HighlightOverwrites(links, LastIntersecting(init).value, last.sectionId);
      }
    }
  }

  /** After a batch with an intersecting entry at most one link is active, whatever the
      flags were before; a batch never breaks the property once it holds. */
  lemma {:induction false} BatchKeepsAtMostOneActive(links: seq<NavLink>, entries: seq<Entry>)
    requires AtMostOneActive(links) || LastIntersecting(entries).Some?
    ensures AtMostOneActive(ApplyBatch(links, entries))
  {
    LastIntersectingWins(links, entries);
  }

  /** When the winning section has a link, exactly that link (the first with its href) is
      active after the batch. */
  lemma {:induction false} WinnerIsTheOnlyActive(links: seq<NavLink>, entries: seq<Entry>, k: nat)
    requires LastIntersecting(entries).Some?
    requires FirstMatch(links, LinkHref(LastIntersecting(entries).value)) == Some(k)
    ensures |ApplyBatch(links, entries)| == |links|
    ensures forall i :: 0 <= i < |links| ==> (ApplyBatch(links, entries)[i].active <==> i == k)
  {
    LastIntersectingWins(links, entries);
  }

  /** When no link carries the winning section's href, every link ends inactive and the
      hrefs are untouched: the mismatch is silent. */
  lemma {:induction false} UnmatchedSectionClearsAll(links: seq<NavLink>, entries: seq<Entry>)
    requires LastIntersecting(entries).Some?
    requires forall i :: 0 <= i < |links| ==> links[i].href != LinkHref(LastIntersecting(entries).value)
    ensures ApplyBatch(links, entries) == Cleared(links)
  {
    LastIntersectingWins(links, entries);
  }
}
