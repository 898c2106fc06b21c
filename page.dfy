/** Two page-level rules of main.js outside the carousel: the menu link that
    is highlighted when a section scrolls into view (main.js:135-165), and the
    `keyboard-nav` mark on the body (main.js:168-179). The intersection
    observer itself is abstract: it hands the callback a batch of entries. */
module PageBehaviour {
  import opened Wrappers
  import opened Counting

  /** The position of the first link whose href equals `target`, in document
      order: what `querySelector` returns for `a[href="<target>"]`. */
  function FirstLink(hrefs: seq<string>, target: string): (r: Option<nat>)
    ensures r.Some? ==> r.value < |hrefs| && hrefs[r.value] == target
    ensures r.Some? ==> forall j :: 0 <= j < r.value ==> hrefs[j] != target
    ensures r.None? <==> target !in hrefs
  {
    if |hrefs| == 0 then None
    else if hrefs[0] == target then Some(0)
    else match FirstLink(hrefs[1..], target)
      case None => None
      case Some(k) => Some(k + 1)
  }

  /** The `active` flags of the menu links after section `id` came into view. */
  function Highlighted(hrefs: seq<string>, id: string): (flags: seq<bool>)
    ensures |flags| == |hrefs|
  {
    seq(|hrefs|, k requires 0 <= k < |hrefs| => FirstLink(hrefs, "#" + id) == Some(k))
  }

  /** After a section comes into view exactly one link is highlighted when
      some link points to it, and none otherwise; a highlighted link points
      to the section. */
  lemma HighlightMarksExactlyOne(hrefs: seq<string>, id: string)
    ensures CountTrue(Highlighted(hrefs, id)) == if "#" + id in hrefs then 1 else 0
    ensures forall k :: 0 <= k < |hrefs| && Highlighted(hrefs, id)[k] ==> hrefs[k] == "#" + id
  {
    var found := FirstLink(hrefs, "#" + id);
    CountOnly(Highlighted(hrefs, id), if found.Some? then found.value else -1);
  }

  /** An entry of an intersection-observer batch. */
  datatype Entry = Entry(id: string, isIntersecting: bool)

  /** The position of the last intersecting entry of a batch, if any. */
  function LastIntersecting(entries: seq<Entry>): (r: Option<nat>)
    ensures r.Some? ==> r.value < |entries| && entries[r.value].isIntersecting
    ensures r.Some? ==> forall j :: r.value < j < |entries| ==> !entries[j].isIntersecting
    ensures r.None? <==> forall j :: 0 <= j < |entries| ==> !entries[j].isIntersecting
  {
    if |entries| == 0 then None
    else if entries[|entries| - 1].isIntersecting then Some(|entries| - 1)
    else LastIntersecting(entries[..|entries| - 1])
  }

  /** The links of `.nav-menu` and their `active` classes. */
  class NavMenu {
    const hrefs: seq<string>
    const active: array<bool>

    ghost predicate Valid()
      reads this
    {
      active.Length == |hrefs|
    }

    constructor (hrefs: seq<string>, initial: seq<bool>)
      requires |initial| == |hrefs|
      ensures Valid() && fresh(active)
      ensures this.hrefs == hrefs && active[..] == initial
    {
      this.hrefs := hrefs;
      active := new bool[|hrefs|](k requires 0 <= k < |initial| => initial[k]);
    }

    /** One intersecting entry: clear every link, then mark the first link to
        `#id`, if there is one. */
    method MarkSection(id: string)
      requires Valid()
      modifies active
      ensures active[..] == Highlighted(hrefs, id)
    {
      for k := 0 to active.Length
        invariant forall j :: 0 <= j < k ==> !active[j]
      {
        active[k] := false;
      }
      var found := FirstLink(hrefs, "#" + id);
      if found.Some? {
        active[found.value] := true;
      }
    }

    /** The observer callback: each intersecting entry of the batch, in
        order, re-marks the menu, so the last one decides. */
    method OnIntersect(entries: seq<Entry>)
      requires Valid()
      modifies active
      ensures LastIntersecting(entries).None? ==> active[..] == old(active[..])
      ensures LastIntersecting(entries).Some? ==>
        active[..] == Highlighted(hrefs, entries[LastIntersecting(entries).value].id)
    {
      for i := 0 to |entries|
        invariant LastIntersecting(entries[..i]).None? ==> active[..] == old(active[..])
        invariant LastIntersecting(entries[..i]).Some? ==>
          active[..] == Highlighted(hrefs, entries[LastIntersecting(entries[..i]).value].id)
      {
        assert entries[..i + 1][..i] == entries[..i];
        if entries[i].isIntersecting {
          MarkSection(entries[i].id);
        }
      }
      assert entries[..|entries|] == entries;
    }
  }

  /** The document events that touch the `keyboard-nav` class. */
  datatype InputEvent = KeyDown(key: string) | MouseDown

  /** The effect of one event on the `keyboard-nav` flag. */
  function React(flag: bool, e: InputEvent): bool {
    match e
    case KeyDown(key) => flag || key == "Tab"
    case MouseDown => false
  }

  /** The flag after a sequence of events, first to last. */
  function KeyboardNavAfter(start: bool, events: seq<InputEvent>): bool {
    if |events| == 0 then start
    else React(KeyboardNavAfter(start, events[..|events| - 1]), events[|events| - 1])
  }

  /** No mouse press at position `from` or later. */
  predicate NoMouseDownFrom(events: seq<InputEvent>, from: nat) {
    forall j :: from <= j < |events| ==> !events[j].MouseDown?
  }

  /** The body is in keyboard mode iff a Tab was pressed with no mouse press
      since, or it started in keyboard mode and the mouse was never pressed. */
  lemma {:induction false} KeyboardNavIff(start: bool, events: seq<InputEvent>)
    ensures KeyboardNavAfter(start, events) <==>
      (exists i :: 0 <= i < |events| && events[i] == KeyDown("Tab") && NoMouseDownFrom(events, i + 1))
      || (start && NoMouseDownFrom(events, 0))
  {
    if |events| > 0 {
      var init := events[..|events| - 1];
      var last := events[|events| - 1];
      KeyboardNavIff(start, init);
      // A quiet suffix of all events is a quiet suffix of the earlier ones.
      forall i: nat | i <= |init| && NoMouseDownFrom(events, i)
        ensures NoMouseDownFrom(init, i)
      {
      }
      if KeyboardNavAfter(start, events) && last != KeyDown("Tab") {
        if exists i :: 0 <= i < |init| && init[i] == KeyDown("Tab") && NoMouseDownFrom(init, i + 1) {
          var i :| 0 <= i < |init| && init[i] == KeyDown("Tab") && NoMouseDownFrom(init, i + 1);
          assert events[i] == KeyDown("Tab") && NoMouseDownFrom(events, i + 1);
        }
      }
      if last == KeyDown("Tab") {
        assert NoMouseDownFrom(events, |events|);
      }
    }
  }

  /** The document body and its `keyboard-nav` class. */
  class Body {
    var keyboardNav: bool

    constructor ()
      ensures !keyboardNav
    {
      keyboardNav := false;
    }

    /** `keydown`: Tab turns keyboard mode on; other keys change nothing. */
    method OnKeyDown(key: string)
      modifies this
      ensures keyboardNav == KeyboardNavAfter(old(keyboardNav), [KeyDown(key)])
    {
      if key == "Tab" {
        keyboardNav := true;
      }
    }

    /** `mousedown`: keyboard mode off. */
    method OnMouseDown()
      modifies this
      ensures keyboardNav == KeyboardNavAfter(old(keyboardNav), [MouseDown])
    {
      keyboardNav := false;
    }
  }
}
