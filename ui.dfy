/** The page around the scene, as far as main.js changes it: the modal (its
    visibility, title, text and visit button), the cursor style and the
    windows opened. The DOM itself is not modelled; this record holds what
    main.js writes into it. */
module Ui {
  import opened Wrappers
  import opened Content

  datatype Cursor = Default | Pointer

  datatype UiState = UiState(
    modalHidden: bool,          // the "hidden" class on .modal
    title: string,              // .modal-title text
    description: string,        // .modal-project-description text
    visitShown: bool,           // the visit button's display is "flex", not "none"
    visitLink: Option<string>,  // the URL the visit button's onclick opens, if one was installed
    cursor: Cursor,             // document.body.style.cursor
    openedUrls: seq<string>     // every window.open, in order
  )

  /** The modal's own fields are those of u. */
  predicate SameModal(u: UiState, v: UiState)
  {
    u.modalHidden == v.modalHidden && u.title == v.title && u.description == v.description
    && u.visitShown == v.visitShown && u.visitLink == v.visitLink
  }

  /** openModal: show the entry for name; a name without an entry changes
      nothing (the source only logs it). */
  function OpenModal(ui: UiState, name: string): (r: UiState)
    ensures Lookup(name).None? ==> r == ui
    ensures Lookup(name).Some? ==>
      var e := Lookup(name).value;
      && !r.modalHidden
      && r.title == e.title && r.description == e.content
      && (r.visitShown <==> HasLink(e))
      && r.visitLink == (if HasLink(e) then e.link else ui.visitLink)
    ensures r.cursor == ui.cursor && r.openedUrls == ui.openedUrls
  {
    match Lookup(name)
    case None => ui
    case Some(e) =>
      var shown := ui.(title := e.title, description := e.content, modalHidden := false);
      if HasLink(e) then shown.(visitShown := true, visitLink := e.link)
      else shown.(visitShown := false)
  }

  /** Adding the "hidden" class: the Escape key and the exit button. */
  function HideModal(ui: UiState): (r: UiState)
    ensures r.modalHidden
    ensures r.(modalHidden := ui.modalHidden) == ui
  {
    ui.(modalHidden := true)
  }

  /** window.open(url, "_blank"). */
  function OpenWindow(ui: UiState, url: string): (r: UiState)
    ensures r.openedUrls == ui.openedUrls + [url]
    ensures SameModal(r, ui) && r.cursor == ui.cursor
  {
    ui.(openedUrls := ui.openedUrls + [url])
  }

  /** The visit button can be clicked: the modal around it is shown and the
      button itself is displayed. */
  predicate VisitClickable(ui: UiState)
  {
    !ui.modalHidden && ui.visitShown
  }

  /** The button's own handler when the visit button is clicked: the
      onclick openModal installed. A button that is not displayed, or sits in
      a hidden modal, cannot be clicked. */
  function ClickVisit(ui: UiState): (r: UiState)
    ensures VisitClickable(ui) && ui.visitLink.Some? ==> r.openedUrls == ui.openedUrls + [ui.visitLink.value]
    ensures !(VisitClickable(ui) && ui.visitLink.Some?) ==> r == ui
    ensures SameModal(r, ui) && r.cursor == ui.cursor
  {
    if VisitClickable(ui) && ui.visitLink.Some? then OpenWindow(ui, ui.visitLink.value) else ui
  }

  /** Opening the same name twice shows what opening it once does. */
  lemma OpenModalIdempotent(ui: UiState, name: string)
    ensures OpenModal(OpenModal(ui, name), name) == OpenModal(ui, name)
  {
  }

  /** After openModal for a name whose entry has a link, the visit button
      opens exactly that link (openModal always shows the modal). */
  lemma VisitOpensEntryLink(ui: UiState, name: string)
    requires Lookup(name).Some? && HasLink(Lookup(name).value)
    ensures ClickVisit(OpenModal(ui, name)).openedUrls == ui.openedUrls + [Lookup(name).value.link.value]
  {
  }

  /** After openModal for an entry without a link the visit button is hidden,
      so clicking it opens nothing, whatever an earlier entry installed. */
  lemma NoVisitWithoutLink(ui: UiState, name: string)
    requires Lookup(name).Some? && !HasLink(Lookup(name).value)
    ensures ClickVisit(OpenModal(ui, name)) == OpenModal(ui, name)
  {
  }

  /** Once the modal is hidden again (Escape or the exit button), its visit
      button opens nothing, even for an entry with a link. */
  lemma NoVisitWhenHidden(ui: UiState, name: string)
    ensures ClickVisit(HideModal(OpenModal(ui, name))) == HideModal(OpenModal(ui, name))
  {
  }

  /** The entries of main.js: "Project_1" shows "Project One" with its visit
      button, "Shoes" shows "About Me" without one, "Text002" has no entry. */
  lemma ModalExamples(ui: UiState)
    ensures OpenModal(ui, "Project_1").title == "Project One"
    ensures OpenModal(ui, "Project_1").visitShown
    ensures OpenModal(ui, "Shoes").title == "About Me"
    ensures !OpenModal(ui, "Shoes").visitShown
    ensures OpenModal(ui, "Text002") == ui
  {
    assert "Text002" !in MODEL_CONTENT;
  }
}
