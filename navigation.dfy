/** Active-section highlighting (js/js.js, the window's scroll handler): the
    scan picks the last section in document order that the page has scrolled
    to, with a fixed lookahead, and every navigation link is re-marked so that
    only a link pointing at that section carries the `active` class. */
module Navigation {

  import opened Options

  /** How far above a section's top the scroll position already counts as
      reaching it, in CSS pixels. */
  const Lookahead: int := 200

  /** The class the handler removes and re-adds. */
  const Active: string := "active"

  /** A `section` element: its `id` attribute (None when the attribute is
      missing, where `getAttribute` gives null) and its `offsetTop`. */
  datatype Section = Section(id: Option<string>, offsetTop: int)

  /** The test of the scan: `pageYOffset >= sectionTop - 200`. The scroll
      position is a real number because `pageYOffset` may be fractional. */
  predicate Reached(s: Section, scrollY: real)
  {
    scrollY >= (s.offsetTop - Lookahead) as real
  }

  /** Index of the last section, in document order, that the scroll position
      has reached; None when it has reached none. */
  function LastReached(sections: seq<Section>, scrollY: real): (r: Option<nat>)
    ensures r.Some? ==> r.value < |sections| && Reached(sections[r.value], scrollY)
    ensures r.Some? ==> forall j :: r.value < j < |sections| ==> !Reached(sections[j], scrollY)
    ensures r.None? <==> forall j :: 0 <= j < |sections| ==> !Reached(sections[j], scrollY)
  {
    if sections == [] then None
    else if Reached(sections[|sections| - 1], scrollY) then Some(|sections| - 1)
    else LastReached(sections[..|sections| - 1], scrollY)
  }

  /** The value of `current` after the scan: '' when no section is reached,
      otherwise the id attribute of the last reached section (None for null). */
  function CurrentOf(sections: seq<Section>, scrollY: real): Option<string>
  {
    match LastReached(sections, scrollY)
    case None => Some("")
    case Some(k) => sections[k].id
  }

  /** The scan over the sections, reassigning `current` at each reached one. */
  method ScanCurrent(sections: seq<Section>, scrollY: real) returns (current: Option<string>)
    ensures current == CurrentOf(sections, scrollY)
    ensures (forall j :: 0 <= j < |sections| ==> !Reached(sections[j], scrollY)) ==> current == Some("")
    ensures forall k :: 0 <= k < |sections| && Reached(sections[k], scrollY)
              && (forall j :: k < j < |sections| ==> !Reached(sections[j], scrollY))
              ==> current == sections[k].id
  {
    current := Some("");
    var i := 0;
    while i < |sections|
      invariant 0 <= i <= |sections|
      invariant current == CurrentOf(sections[..i], scrollY)
    {
      assert sections[..i + 1][..i] == sections[..i];
      if scrollY >= (sections[i].offsetTop - Lookahead) as real {
        current := sections[i].id;
      }
      i := i + 1;
    }
    assert sections[..i] == sections;
  }

  /** Scrolling further down never moves the active section to an earlier one.
      This holds whatever the order of the section offsets. */
  lemma LastReachedMonotone(sections: seq<Section>, y1: real, y2: real)
    requires y1 <= y2
    ensures LastReached(sections, y1).Some? ==> LastReached(sections, y2).Some?
    ensures LastReached(sections, y1).Some? ==>
              LastReached(sections, y1).value <= LastReached(sections, y2).value
  {
  }

  /** With offsets in document order, the reached sections form a prefix, and
      the last one is the reached section with the greatest top. */
  lemma SortedReachedIsPrefix(sections: seq<Section>, scrollY: real)
    requires forall i, j :: 0 <= i < j < |sections| ==> sections[i].offsetTop <= sections[j].offsetTop
    requires LastReached(sections, scrollY).Some?
    ensures forall j :: 0 <= j <= LastReached(sections, scrollY).value ==> Reached(sections[j], scrollY)
    ensures forall j :: 0 <= j < |sections| && Reached(sections[j], scrollY) ==>
              sections[j].offsetTop <= sections[LastReached(sections, scrollY).value].offsetTop
  {
  }

  /** The text `#${current}`: a null id renders as "null". */
  function HashRef(current: Option<string>): string
  {
    "#" + match current
          case None => "null"
          case Some(s) => s
  }

  /** A `.nav-link` element: its `href` attribute (None when missing) and its class list. */
  datatype NavLink = NavLink(href: Option<string>, classes: set<string>)

  /** One link after `classList.remove('active')` and the conditional `classList.add('active')`. */
  function Toggle(link: NavLink, current: Option<string>): (l: NavLink)
    ensures l.href == link.href
    ensures Active in l.classes <==> link.href == Some(HashRef(current))
    ensures l.classes - {Active} == link.classes - {Active}
  {
    var removed := link.classes - {Active};
    if link.href == Some(HashRef(current)) then link.(classes := removed + {Active})
    else link.(classes := removed)
  }

  /** The links after the pass, as a function of the links before it. */
  function ToggleAll(links: seq<NavLink>, current: Option<string>): seq<NavLink>
  {
    seq(|links|, k requires 0 <= k < |links| => Toggle(links[k], current))
  }

  /** The pass over the links, in place. */
  method UpdateLinks(links: array<NavLink>, current: Option<string>)
    modifies links
    ensures links[..] == ToggleAll(old(links[..]), current)
    ensures forall k :: 0 <= k < links.Length ==>
              (Active in links[k].classes <==> links[k].href == Some(HashRef(current)))
  {
    var i := 0;
    while i < links.Length
      invariant 0 <= i <= links.Length
      invariant forall k :: 0 <= k < i ==> links[k] == Toggle(old(links[k]), current)
      invariant forall k :: i <= k < links.Length ==> links[k] == old(links[k])
    {
      var link := links[i];
      var classes := link.classes - {Active};
      if link.href == Some(HashRef(current)) {
        classes := classes + {Active};
      }
      links[i] := link.(classes := classes);
      i := i + 1;
    }
  }

  /** The whole scroll handler. */
  method OnScroll(sections: seq<Section>, links: array<NavLink>, scrollY: real)
    modifies links
    ensures links[..] == ToggleAll(old(links[..]), CurrentOf(sections, scrollY))
  {
    var current := ScanCurrent(sections, scrollY);
    UpdateLinks(links, current);
  }

  /** Positions of the links that carry the `active` class. */
  function ActiveIndices(links: seq<NavLink>): set<int>
  {
    set i | 0 <= i < |links| && Active in links[i].classes
  }

  /** Positions of the links whose href is `'#' + current`. */
  function MatchingIndices(links: seq<NavLink>, current: Option<string>): set<int>
  {
    set i | 0 <= i < |links| && links[i].href == Some(HashRef(current))
  }

  /** After the pass, the active links are exactly the links pointing at the
      current section, so exactly one link is active iff exactly one matches. */
  lemma ActiveLinksAreMatchingLinks(links: seq<NavLink>, current: Option<string>)
    ensures ActiveIndices(ToggleAll(links, current)) == MatchingIndices(links, current)
    ensures |ActiveIndices(ToggleAll(links, current))| == 1 <==> |MatchingIndices(links, current)| == 1
  {
  }

  /** With distinct hrefs, at most one link is active after the pass, and
      exactly one when some link points at the current section. */
  lemma AtMostOneActive(links: seq<NavLink>, current: Option<string>)
    requires forall i, j :: 0 <= i < j < |links| ==> links[i].href != links[j].href
    ensures |ActiveIndices(ToggleAll(links, current))| <= 1
    ensures MatchingIndices(links, current) != {} ==> |ActiveIndices(ToggleAll(links, current))| == 1
  {
    ActiveLinksAreMatchingLinks(links, current);
    var m := MatchingIndices(links, current);
    if m != {} {
      var i :| i in m;
      assert m == {i} by {
        forall j | j in m ensures j == i {
          assert links[j].href == links[i].href;
        }
      }
    }
  }

  /** Before the first section is reached, `current` is '' and only a link whose
      href is exactly "#" ends up active. */
  lemma NothingReachedMarksBareHash(sections: seq<Section>, scrollY: real, link: NavLink)
    requires forall j :: 0 <= j < |sections| ==> !Reached(sections[j], scrollY)
    ensures Active in Toggle(link, CurrentOf(sections, scrollY)).classes <==> link.href == Some("#")
  {
    assert CurrentOf(sections, scrollY) == Some("");
    assert HashRef(Some("")) == "#";
  }
}
