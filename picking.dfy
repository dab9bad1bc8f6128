/** Which scene node the pointer is over, what a click on it does, and which
    nodes the load pass registers as pickable (main.js: the name filter of
    the traversal, onClick, and the hover part of animate). */
module Picking {
  import opened Wrappers
  import opened Content
  import opened Ui
  import opened Input

  /** A scene node as the traversal meets it: its name and the transform it
      was loaded with. */
  datatype SceneNode = SceneNode(name: string, position: Vec3, rotationY: real)

  /** One entry of the raycaster's hit list: how far along the ray it lies,
      and the name of the hit object's parent. */
  datatype Intersection = Intersection(distance: real, parentName: string)

  // ---------------------------------------------------------------------
  // Load-time registry

  /** The nodes of a traversal whose names are allow-listed, in traversal
      order: what the load pass pushes onto intersectObjects. */
  function AllowListed(nodes: seq<SceneNode>): (r: seq<SceneNode>)
    ensures |r| <= |nodes|
    ensures forall i :: 0 <= i < |r| ==> r[i].name in INTERSECT_OBJECT_NAMES
    decreases |nodes|
  {
    if nodes == [] then []
    else
      var last := nodes[|nodes| - 1];
      AllowListed(nodes[..|nodes| - 1]) + (if last.name in INTERSECT_OBJECT_NAMES then [last] else [])
  }

  /** The filter works piece by piece: a traversal split in two is filtered
      as its two parts, one after the other, so traversal order is kept. */
  lemma {:induction false} AllowListedAppend(a: seq<SceneNode>, b: seq<SceneNode>)
    ensures AllowListed(a + b) == AllowListed(a) + AllowListed(b)
    decreases |b|
  {
    if b == [] {
      assert a + b == a;
    } else {
      var b' := b[..|b| - 1];
      assert (a + b)[..|a + b| - 1] == a + b';
      AllowListedAppend(a, b');
    }
  }

  /** A node is registered exactly when the traversal met it and its name is
      allow-listed. */
  lemma {:induction false} AllowListedMembers(nodes: seq<SceneNode>, n: SceneNode)
    ensures n in AllowListed(nodes) <==> n in nodes && n.name in INTERSECT_OBJECT_NAMES
    decreases |nodes|
  {
    if nodes != [] {
      var init := nodes[..|nodes| - 1];
      AllowListedMembers(init, n);
      assert nodes == init + [nodes[|nodes| - 1]];
    }
  }

  /** Every node is registered as often as the traversal met it, when its
      name is allow-listed, and never otherwise. */
  lemma {:induction false} AllowListedCounts(nodes: seq<SceneNode>, n: SceneNode)
    ensures multiset(AllowListed(nodes))[n] == if n.name in INTERSECT_OBJECT_NAMES then multiset(nodes)[n] else 0
    decreases |nodes|
  {
    if nodes != [] {
      var init := nodes[..|nodes| - 1];
      AllowListedCounts(init, n);
      assert nodes == init + [nodes[|nodes| - 1]];
    }
  }

  /** Filtering twice filters once. */
  lemma {:induction false} AllowListedIdempotent(nodes: seq<SceneNode>)
    ensures AllowListed(AllowListed(nodes)) == AllowListed(nodes)
    decreases |nodes|
  {
    if nodes != [] {
      var init := nodes[..|nodes| - 1];
      var last := nodes[|nodes| - 1];
      var tail := if last.name in INTERSECT_OBJECT_NAMES then [last] else [];
      assert AllowListed(nodes) == AllowListed(init) + tail;
      AllowListedIdempotent(init);
      AllowListedAppend(AllowListed(init), tail);
      assert [last][..0] == [];
      assert AllowListed(tail) == tail;
    }
  }

  /** The index of the node that becomes character.instance: the last one
      named "Shoes", since each such node overwrites the previous one. */
  function CharacterIndex(nodes: seq<SceneNode>): (r: Option<nat>)
    ensures r.Some? ==> r.value < |nodes| && nodes[r.value].name == CHARACTER_NAME
    ensures r.Some? ==> forall j :: r.value < j < |nodes| ==> nodes[j].name != CHARACTER_NAME
    ensures r.None? <==> forall j :: 0 <= j < |nodes| ==> nodes[j].name != CHARACTER_NAME
    decreases |nodes|
  {
    if nodes == [] then None
    else if nodes[|nodes| - 1].name == CHARACTER_NAME then Some(|nodes| - 1)
    else CharacterIndex(nodes[..|nodes| - 1])
  }

  // ---------------------------------------------------------------------
  // Hover

  /** What animate leaves in intersectObject: nothing when the ray hits
      nothing, else the parent name of the first hit. */
  function Hovered(hits: seq<Intersection>): (h: Option<string>)
    ensures h.None? <==> hits == []
    ensures h.Some? ==> h.value == hits[0].parentName
  {
    if |hits| == 0 then None else Some(hits[0].parentName)
  }

  /** The cursor animate sets. */
  function CursorFor(hits: seq<Intersection>): (c: Cursor)
    ensures c == Pointer <==> hits != []
  {
    if |hits| > 0 then Pointer else Default
  }

  /** The raycaster's order: nearest first. */
  ghost predicate NearestFirst(hits: seq<Intersection>)
  {
    forall i :: 0 < i < |hits| ==> hits[i - 1].distance <= hits[i].distance
  }

  /** The cursor is the pointer exactly when something is hovered. */
  lemma CursorShowsHover(hits: seq<Intersection>)
    ensures CursorFor(hits) == Pointer <==> Hovered(hits).Some?
    ensures CursorFor(hits) == Default <==> Hovered(hits) == None
  {
  }

  /** Only the first hit matters, however many there are. */
  lemma HoveredIsFirstHit(hits: seq<Intersection>, others: seq<Intersection>)
    requires |hits| > 0
    ensures Hovered(hits + others) == Hovered(hits) == Some(hits[0].parentName)
  {
  }

  /** With the hit list in the raycaster's order, the hovered name is that of
      a nearest hit. */
  lemma {:induction false} HoveredIsNearest(hits: seq<Intersection>, j: nat)
    requires NearestFirst(hits)
    requires j < |hits|
    ensures Hovered(hits).Some?
    ensures hits[0].distance <= hits[j].distance
    decreases j
  {
    if j > 0 {
      HoveredIsNearest(hits, j - 1);
    }
  }

  // ---------------------------------------------------------------------
  // Click

  /** What a click does, decided from intersectObject alone. */
  datatype ClickAction =
    | Ignore                    // nothing hovered
    | OpenLink(url: string)     // a direct link: navigate, no modal
    | ShowInfo(name: string)    // openModal with an entry
    | NoContent(name: string)   // openModal without an entry: only logged

  /** onClick's decision: the direct-link table first, then the modal
      content table. */
  function ClickOutcome(hovered: Option<string>): (a: ClickAction)
    ensures a == Ignore <==> hovered.None?
    ensures a.OpenLink? <==> hovered.Some? && DirectLink(hovered.value).Some?
    ensures a.OpenLink? ==> Some(a.url) == DirectLink(hovered.value)
    ensures a.ShowInfo? <==> hovered.Some? && DirectLink(hovered.value).None? && Lookup(hovered.value).Some?
    ensures a.ShowInfo? || a.NoContent? ==> a.name == hovered.value
  {
    match hovered
    case None => Ignore
    case Some(name) =>
      match DirectLink(name)
      case Some(url) => OpenLink(url)
      case None => if Lookup(name).Some? then ShowInfo(name) else NoContent(name)
  }

  /** What an action does to the page. A direct link also sets the pointer
      cursor before it opens the window. */
  function Perform(ui: UiState, a: ClickAction): (r: UiState)
    ensures a.Ignore? ==> r == ui
    ensures a.OpenLink? ==> SameModal(r, ui) && r.cursor == Pointer && r.openedUrls == ui.openedUrls + [a.url]
    ensures a.NoContent? && Lookup(a.name).None? ==> r == ui
    ensures a.ShowInfo? || a.NoContent? ==> r == OpenModal(ui, a.name)
  {
    match a
    case Ignore => ui
    case OpenLink(url) => OpenWindow(ui.(cursor := Pointer), url)
    case ShowInfo(name) => OpenModal(ui, name)
    case NoContent(name) => OpenModal(ui, name)
  }

  /** A click with nothing hovered, or on a name found in neither table,
      leaves the page as it was. */
  lemma ClickWithoutTargetIsInert(ui: UiState, hovered: Option<string>)
    requires hovered.None? || (DirectLink(hovered.value).None? && Lookup(hovered.value).None?)
    ensures Perform(ui, ClickOutcome(hovered)) == ui
  {
  }

  /** A name in the direct-link table opens its link and never touches the
      modal, even if the content table has an entry for it too. */
  lemma DirectLinkBypassesModal(ui: UiState, name: string)
    requires name in DIRECT_LINKS && DIRECT_LINKS[name] != ""
    ensures ClickOutcome(Some(name)) == OpenLink(DIRECT_LINKS[name])
    ensures var r := Perform(ui, ClickOutcome(Some(name)));
      SameModal(r, ui) && r.openedUrls == ui.openedUrls + [DIRECT_LINKS[name]] && r.cursor == Pointer
  {
  }

  /** The modal opens on a click exactly when the name is no direct link and
      has an entry; it then shows that entry. */
  lemma ClickShowsInfoIff(ui: UiState, name: string)
    ensures ClickOutcome(Some(name)).ShowInfo? <==> DirectLink(name).None? && Lookup(name).Some?
    ensures ClickOutcome(Some(name)).ShowInfo? ==>
      var r := Perform(ui, ClickOutcome(Some(name)));
      !r.modalHidden && r.title == MODEL_CONTENT[name].title && r.openedUrls == ui.openedUrls
  {
  }

  /** Hover then click, with the names of main.js: "Project_1" shows
      "Project One", "Scene" navigates to its link without the modal,
      "Text002" is pickable but inert. */
  lemma HoverThenClickExamples(ui: UiState, d: real, rest: seq<Intersection>)
    ensures var r := Perform(ui, ClickOutcome(Hovered([Intersection(d, "Project_1")] + rest)));
      !r.modalHidden && r.title == "Project One" && r.visitShown
    ensures var r := Perform(ui, ClickOutcome(Hovered([Intersection(d, "Scene")] + rest)));
      SameModal(r, ui) && r.openedUrls == ui.openedUrls + ["https://www.example.com"]
    ensures Perform(ui, ClickOutcome(Hovered([Intersection(d, "Text002")] + rest))) == ui
  {
    assert "Project_1" !in DIRECT_LINKS && "Text002" !in DIRECT_LINKS && "Text002" !in MODEL_CONTENT;
  }

  // ---------------------------------------------------------------------
  // Clicks on the modal's buttons

  /* onClick listens on window, so a click on one of the modal's buttons runs
     the button's own handler and then bubbles up to onClick, which acts on
     whatever the ray under the pointer last hit. */

  /** A click on the exit button: hide the modal, then onClick. */
  function ExitButtonClick(ui: UiState, hovered: Option<string>): (r: UiState)
    ensures ClickOutcome(hovered).ShowInfo? ==> !r.modalHidden
    ensures !ClickOutcome(hovered).ShowInfo? ==> r.modalHidden
    ensures r.openedUrls == ui.openedUrls + (if ClickOutcome(hovered).OpenLink? then [ClickOutcome(hovered).url] else [])
  {
    Perform(HideModal(ui), ClickOutcome(hovered))
  }

  /** A click on the visit button: its own onclick, then onClick. */
  function VisitButtonClick(ui: UiState, hovered: Option<string>): (r: UiState)
    ensures var own := if VisitClickable(ui) && ui.visitLink.Some? then [ui.visitLink.value] else [];
      var bubbled := if ClickOutcome(hovered).OpenLink? then [ClickOutcome(hovered).url] else [];
      r.openedUrls == ui.openedUrls + own + bubbled
  {
    Perform(ClickVisit(ui), ClickOutcome(hovered))
  }

  /** With nothing hovered the exit button closes the modal; with "Project_1"
      hovered behind the button the modal closes and at once opens again; a
      hovered name in neither table leaves it closed. */
  lemma ExitClickReopensBehind(ui: UiState)
    ensures ExitButtonClick(ui, None).modalHidden
    ensures !ExitButtonClick(ui, Some("Project_1")).modalHidden
    ensures ExitButtonClick(ui, Some("Project_1")).title == "Project One"
    ensures ExitButtonClick(ui, Some("Text002")) == HideModal(ui)
  {
    assert "Project_1" !in DIRECT_LINKS && "Text002" !in DIRECT_LINKS && "Text002" !in MODEL_CONTENT;
  }

  /** With a direct-link node behind the visit button, one click opens two
      windows: the entry's link, then the direct link. */
  lemma VisitClickOverDirectLinkOpensTwo(ui: UiState)
    requires VisitClickable(ui) && ui.visitLink.Some?
    ensures VisitButtonClick(ui, Some("Scene")).openedUrls == ui.openedUrls + [ui.visitLink.value, "https://www.example.com"]
  {
  }
}
