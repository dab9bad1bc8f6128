/** The module-level state of main.js and the handlers that change it: the
    character object with its movement lock, the hovered name, the pickable
    nodes, the pointer, and the page record. */
module Portfolio {
  import opened Wrappers
  import opened Angles
  import opened Content
  import opened Ui
  import opened Input
  import opened Picking

  /** The tween timeline a key press starts: where the character ends up and
      the heading it ends up facing. */
  datatype Move = Move(target: Vec3, heading: real)

  /** The character object: the scene node that is the character, that
      node's transform, and the movement lock. */
  class Character {
    var instance: Option<SceneNode>
    var position: Vec3      // instance.position
    var rotationY: real     // instance.rotation.y
    var isMoving: bool
    var pending: Option<Move>  // the running timeline, if any

    /** The lock is held exactly while a timeline runs, and only a loaded
        character can be moving. */
    ghost predicate Valid()
      reads this
    {
      (isMoving <==> pending.Some?) && (isMoving ==> instance.Some?)
    }

    constructor ()
      ensures Valid()
      ensures instance == None && !isMoving && pending == None
    {
      instance := None;
      position := Vec3(0.0, 0.0, 0.0);
      rotationY := 0.0;
      isMoving := false;
      pending := None;
    }

    /** character.instance = child: the controller now moves that node. */
    method SetInstance(node: SceneNode)
      requires Valid()
      modifies this
      ensures Valid()
      ensures instance == Some(node) && position == node.position && rotationY == node.rotationY
      ensures isMoving == old(isMoving) && pending == old(pending)
    {
      instance := Some(node);
      position := node.position;
      rotationY := node.rotationY;
    }

    /** moveCharacter: take the lock, then start a timeline towards the target
        position and the target heading brought within half a turn of the
        current one. Nothing moves yet; the tween does that over time. */
    method MoveCharacter(target: Vec3, heading: real)
      requires Valid() && instance.Some? && !isMoving
      modifies this
      ensures Valid() && isMoving
      ensures pending == Some(Move(target, old(rotationY) + WrapDelta(heading - old(rotationY))))
      ensures old(rotationY) - PI <= pending.value.heading <= old(rotationY) + PI
      ensures SameHeading(pending.value.heading, heading)
      ensures instance == old(instance) && position == old(position) && rotationY == old(rotationY)
    {
      isMoving := true;
      var normalized := NormalizeRotation(heading, rotationY);
      pending := Some(Move(target, normalized));
    }

    /** The timeline's onComplete: the tweens have reached their end values
        (the hop's yoyo brings y back to where it started, which is the
        target's y) and the lock is released. */
    method FinishMove()
      requires Valid()
      modifies this
      ensures Valid() && !isMoving && pending == None
      ensures old(pending).Some? ==> position == old(pending).value.target && rotationY == old(pending).value.heading
      ensures old(pending).None? ==> position == old(position) && rotationY == old(rotationY)
      ensures instance == old(instance)
    {
      if pending.Some? {
        position := pending.value.target;
        rotationY := pending.value.heading;
      }
      isMoving := false;
      pending := None;
    }
  }

  /** Everything main.js keeps between events. */
  class Experience {
    const character: Character
    var ui: UiState
    var pointer: Ndc
    var intersectObject: Option<string>
    var intersectObjects: seq<SceneNode>

    /** The character's lock invariant. */
    ghost predicate Valid()
      reads this, character
    {
      character.Valid()
    }

    /** The state before the scene has loaded; the page starts as given. */
    constructor (page: UiState)
      ensures Valid() && fresh(character)
      ensures ui == page && pointer == Ndc(0.0, 0.0)
      ensures intersectObject == None && intersectObjects == []
      ensures character.instance == None && !character.isMoving
    {
      character := new Character();
      ui := page;
      pointer := Ndc(0.0, 0.0);
      intersectObject := None;
      intersectObjects := [];
    }

    /** The name pass of the load callback's traversal: push every
        allow-listed node onto intersectObjects and make each node named
        "Shoes" the character, in traversal order. */
    method Load(nodes: seq<SceneNode>)
      requires Valid()
      modifies this, character
      ensures Valid()
      ensures intersectObjects == old(intersectObjects) + AllowListed(nodes)
      ensures CharacterIndex(nodes).Some? ==>
        var k := CharacterIndex(nodes).value;
        && character.instance == Some(nodes[k])
        && character.position == nodes[k].position && character.rotationY == nodes[k].rotationY
      ensures CharacterIndex(nodes).None? ==>
        && character.instance == old(character.instance)
        && character.position == old(character.position) && character.rotationY == old(character.rotationY)
      ensures character.isMoving == old(character.isMoving) && character.pending == old(character.pending)
      ensures ui == old(ui) && pointer == old(pointer) && intersectObject == old(intersectObject)
    {
      var i := 0;
      while i < |nodes|
        invariant 0 <= i <= |nodes|
        invariant Valid()
        invariant intersectObjects == old(intersectObjects) + AllowListed(nodes[..i])
        invariant CharacterIndex(nodes[..i]).Some? ==>
          var k := CharacterIndex(nodes[..i]).value;
          && character.instance == Some(nodes[k])
          && character.position == nodes[k].position && character.rotationY == nodes[k].rotationY
        invariant CharacterIndex(nodes[..i]).None? ==>
          && character.instance == old(character.instance)
          && character.position == old(character.position) && character.rotationY == old(character.rotationY)
        invariant character.isMoving == old(character.isMoving) && character.pending == old(character.pending)
        invariant ui == old(ui) && pointer == old(pointer) && intersectObject == old(intersectObject)
      {
        var child := nodes[i];
        assert nodes[..i + 1] == nodes[..i] + [child];
        if child.name in INTERSECT_OBJECT_NAMES {
          intersectObjects := intersectObjects + [child];
        }
        if child.name == CHARACTER_NAME {
          character.SetInstance(child);
        }
        i := i + 1;
      }
      assert nodes[..|nodes|] == nodes;
    }

    /** handlePointerMove: keep the pointer in normalised device coordinates
        of a window of the given size. */
    method HandlePointerMove(clientX: real, clientY: real, width: real, height: real)
      requires width > 0.0 && height > 0.0
      modifies this
      ensures pointer == PointerToNdc(clientX, clientY, width, height)
      ensures -1.0 <= pointer.x <= 1.0 <==> 0.0 <= clientX <= width
      ensures -1.0 <= pointer.y <= 1.0 <==> 0.0 <= clientY <= height
      ensures ui == old(ui) && intersectObject == old(intersectObject) && intersectObjects == old(intersectObjects)
    {
      pointer := PointerToNdc(clientX, clientY, width, height);
      NdcAxisInRange(clientX, width);
      NdcAxisInRange(clientY, height);
    }

    /** The picking part of animate, given the raycaster's hit list: set the
        cursor, and keep the parent name of the first hit (the loop assigns
        it once per hit) or clear it when nothing is hit. */
    method Animate(hits: seq<Intersection>)
      modifies this
      ensures ui == old(ui).(cursor := CursorFor(hits))
      ensures intersectObject == Hovered(hits)
      ensures pointer == old(pointer) && intersectObjects == old(intersectObjects)
    {
      if |hits| > 0 {
        ui := ui.(cursor := Pointer);
      } else {
        ui := ui.(cursor := Default);
        intersectObject := None;
      }
      for i := 0 to |hits|
        invariant 0 < i ==> intersectObject == Some(hits[0].parentName)
        invariant |hits| == 0 ==> intersectObject == None
        invariant ui == old(ui).(cursor := CursorFor(hits))
        invariant pointer == old(pointer) && intersectObjects == old(intersectObjects)
      {
        intersectObject := Some(hits[0].parentName);
      }
    }

    /** onClick: a direct link first (pointer cursor, open the link), else
        openModal; nothing when nothing is hovered. */
    method OnClick()
      modifies this
      ensures ui == Perform(old(ui), ClickOutcome(old(intersectObject)))
      ensures intersectObject == old(intersectObject) && intersectObjects == old(intersectObjects)
      ensures pointer == old(pointer)
    {
      if intersectObject.Some? {
        var name := intersectObject.value;
        var link := DirectLink(name);
        if link.Some? {
          ui := ui.(cursor := Pointer);
          ui := OpenWindow(ui, link.value);
        } else {
          ui := OpenModal(ui, name);
        }
      }
    }

    /** onKeyDown: Escape hides the modal whatever else happens; then, unless
        the lock is held, a movement key starts a move one step along its
        axis. With no character loaded, reading its position throws and the
        handler stops there. */
    method OnKeyDown(key: string)
      requires Valid()
      modifies this, character
      ensures Valid()
      ensures ui == if key == "Escape" then HideModal(old(ui)) else old(ui)
      ensures var starts := !old(character.isMoving) && old(character.instance).Some? && StepFor(key).Some?;
        && (starts ==>
             var s := StepFor(key).value;
             && character.isMoving
             && character.pending == Some(Move(
                  Target(old(character.position), s),
                  old(character.rotationY) + WrapDelta(s.heading - old(character.rotationY)))))
        && (!starts ==> character.isMoving == old(character.isMoving) && character.pending == old(character.pending))
      ensures character.instance == old(character.instance)
      ensures character.position == old(character.position) && character.rotationY == old(character.rotationY)
      ensures pointer == old(pointer) && intersectObject == old(intersectObject) && intersectObjects == old(intersectObjects)
    {
      if key == "Escape" {
        ui := HideModal(ui);
      }
      if character.isMoving {
        return;
      }
      if character.instance.None? {
        return;
      }
      var step := StepFor(key);
      if step.None? {
        return;
      }
      character.MoveCharacter(Target(character.position, step.value), step.value.heading);
    }

    /** The timeline's onComplete, delivered when the tween ends. */
    method OnMoveComplete()
      requires Valid()
      modifies character
      ensures Valid() && !character.isMoving && character.pending == None
      ensures old(character.pending).Some? ==>
        && character.position == old(character.pending).value.target
        && character.rotationY == old(character.pending).value.heading
      ensures old(character.pending).None? ==>
        character.position == old(character.position) && character.rotationY == old(character.rotationY)
      ensures character.instance == old(character.instance)
    {
      character.FinishMove();
    }

    /** A click on the modal's exit button: its listener hides the modal,
        then the click bubbles up to onClick on window. */
    method OnExitClick()
      modifies this
      ensures ui == ExitButtonClick(old(ui), old(intersectObject))
      ensures pointer == old(pointer) && intersectObject == old(intersectObject) && intersectObjects == old(intersectObjects)
    {
      ui := HideModal(ui);
      OnClick();
    }

    /** A click on the visit button: the onclick openModal installed, then
        the click bubbles up to onClick on window. */
    method OnVisitClick()
      modifies this
      ensures ui == VisitButtonClick(old(ui), old(intersectObject))
      ensures pointer == old(pointer) && intersectObject == old(intersectObject) && intersectObjects == old(intersectObjects)
    {
      ui := ClickVisit(ui);
      OnClick();
    }
  }
}
