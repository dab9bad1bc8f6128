/** What main.js makes of its input events: the key-to-move table of
    onKeyDown and the pointer mapping of handlePointerMove. */
module Input {
  import opened Wrappers
  import opened Angles

  datatype Vec3 = Vec3(x: real, y: real, z: real)

  /** character.moveDistance: the length of one step. */
  const MOVE_DISTANCE: real := 10.0

  /** String.prototype.toLowerCase on the letters A to Z. */
  function LowerChar(c: char): (r: char)
    ensures 'A' <= c <= 'Z' ==> 'a' <= r <= 'z' && r as int == c as int + 32
    ensures !('A' <= c <= 'Z') ==> r == c
  {
    if 'A' <= c <= 'Z' then (c as int + 32) as char else c
  }

  function ToLower(s: string): (r: string)
    ensures |r| == |s|
    ensures forall i :: 0 <= i < |s| ==> r[i] == LowerChar(s[i])
  {
    seq(|s|, i requires 0 <= i < |s| => LowerChar(s[i]))
  }

  /** Lower-casing a lower-cased key changes nothing. */
  lemma ToLowerIdempotent(s: string)
    ensures ToLower(ToLower(s)) == ToLower(s)
  {
    var t := ToLower(s);
    assert forall i :: 0 <= i < |t| ==> LowerChar(t[i]) == t[i];
  }

  /** One move: the offsets added to the position's x and z, and the new
      heading (targetRotation). */
  datatype Step = Step(dx: real, dz: real, heading: real)

  const MOVEMENT_KEYS: set<string> := {"w", "arrowup", "s", "arrowdown", "a", "arrowleft", "d", "arrowright"}

  /** The switch on event.key.toLowerCase(): the step a key asks for, or
      None for a key that does not move the character. */
  function StepFor(key: string): (r: Option<Step>)
    ensures r.Some? <==> ToLower(key) in MOVEMENT_KEYS
    ensures r.Some? ==> (r.value.dx == 0.0 <==> r.value.dz != 0.0)
    ensures r.Some? ==> r.value.dx in {0.0, MOVE_DISTANCE, -MOVE_DISTANCE} && r.value.dz in {0.0, MOVE_DISTANCE, -MOVE_DISTANCE}
    ensures r.Some? ==> r.value.heading in {-PI / 2.0, PI / 2.0, 0.0, PI}
  {
    var k := ToLower(key);
    if k == "w" || k == "arrowup" then Some(Step(MOVE_DISTANCE, 0.0, -PI / 2.0))
    else if k == "s" || k == "arrowdown" then Some(Step(-MOVE_DISTANCE, 0.0, PI / 2.0))
    else if k == "a" || k == "arrowleft" then Some(Step(0.0, -MOVE_DISTANCE, 0.0))
    else if k == "d" || k == "arrowright" then Some(Step(0.0, MOVE_DISTANCE, PI))
    else None
  }

  /** targetPosition: a copy of the position moved by the step; y is never
      touched. */
  function Target(p: Vec3, s: Step): (t: Vec3)
    ensures t.y == p.y
    ensures t.x - p.x == s.dx && t.z - p.z == s.dz
  {
    Vec3(p.x + s.dx, p.y, p.z + s.dz)
  }

  /** Upper and lower case name the same move. */
  lemma StepForCaseInsensitive(key: string)
    ensures StepFor(key) == StepFor(ToLower(key))
  {
    ToLowerIdempotent(key);
  }

  /** The table as main.js writes it, in both spellings of each key. */
  lemma KeyTable()
    ensures StepFor("w") == StepFor("ArrowUp") == Some(Step(MOVE_DISTANCE, 0.0, -PI / 2.0))
    ensures StepFor("s") == StepFor("ArrowDown") == Some(Step(-MOVE_DISTANCE, 0.0, PI / 2.0))
    ensures StepFor("a") == StepFor("ArrowLeft") == Some(Step(0.0, -MOVE_DISTANCE, 0.0))
    ensures StepFor("d") == StepFor("ArrowRight") == Some(Step(0.0, MOVE_DISTANCE, PI))
    ensures StepFor("W") == StepFor("w") && StepFor("D") == StepFor("d")
    ensures StepFor("Escape") == None && StepFor(" ") == None
  {
    assert ToLower("w") == "w" && ToLower("s") == "s" && ToLower("a") == "a" && ToLower("d") == "d";
    assert ToLower("W") == "w" && ToLower("D") == "d" && ToLower(" ") == " ";
    assert ToLower("ArrowUp") == "arrowup";
    assert ToLower("ArrowDown") == "arrowdown";
    assert ToLower("ArrowLeft") == "arrowleft";
    assert ToLower("ArrowRight") == "arrowright";
    assert ToLower("Escape") == "escape";
  }

  /** Opposite keys undo each other's steps and face opposite ways. */
  lemma OppositeKeysCancel(p: Vec3)
    ensures Target(Target(p, StepFor("w").value), StepFor("s").value) == p
    ensures Target(Target(p, StepFor("a").value), StepFor("d").value) == p
    ensures StepFor("s").value.heading - StepFor("w").value.heading == PI
    ensures StepFor("d").value.heading - StepFor("a").value.heading == PI
  {
    KeyTable();
  }

  /** Normalised device coordinates of the pointer, as kept in pointer. */
  datatype Ndc = Ndc(x: real, y: real)

  /** One axis of handlePointerMove: [0, size] onto [-1, 1]. */
  function NdcAxis(c: real, size: real): (n: real)
    requires size > 0.0
    ensures c == 0.0 ==> n == -1.0
    ensures c == size ==> n == 1.0
    ensures c < size / 2.0 <==> n < 0.0
  {
    LeftHalf(c, size);
    c / size * 2.0 - 1.0
  }

  /** A coordinate lies left of the middle exactly when it is under half the size. */
  lemma LeftHalf(c: real, size: real)
    requires size > 0.0
    ensures c < size / 2.0 <==> c / size < 0.5
  {
    assert c / size * size == c;
    assert size / 2.0 == 0.5 * size;
  }

  /** The inverse of NdcAxis: back from [-1, 1] to [0, size]. */
  function ClientAxis(n: real, size: real): real
    requires size > 0.0
  {
    (n + 1.0) / 2.0 * size
  }

  /** handlePointerMove: x from the left edge, y from the top edge and then
      flipped so that up is positive. */
  function PointerToNdc(clientX: real, clientY: real, width: real, height: real): (p: Ndc)
    requires width > 0.0 && height > 0.0
    ensures p.x == NdcAxis(clientX, width)
    ensures p.y == -NdcAxis(clientY, height)
  {
    Ndc(clientX / width * 2.0 - 1.0, -(clientY / height) * 2.0 + 1.0)
  }

  /** A coordinate maps into [-1, 1] exactly when it lies on the window. */
  lemma NdcAxisInRange(c: real, size: real)
    requires size > 0.0
    ensures -1.0 <= NdcAxis(c, size) <= 1.0 <==> 0.0 <= c <= size
  {
    var q := c / size;
    assert q * size == c;
    if 0.0 <= q <= 1.0 {
      assert 0.0 <= q * size <= size;
    }
  }

  /** The two mappings undo each other. */
  lemma NdcRoundTrip(c: real, n: real, size: real)
    requires size > 0.0
    ensures ClientAxis(NdcAxis(c, size), size) == c
    ensures NdcAxis(ClientAxis(n, size), size) == n
  {
    assert c / size * size == c;
    DivCancel((n + 1.0) / 2.0, size);
  }

  lemma DivCancel(a: real, size: real)
    requires size > 0.0
    ensures a * size / size == a
  {
  }

  /** The corners and the centre of the window. */
  lemma NdcCorners(width: real, height: real)
    requires width > 0.0 && height > 0.0
    ensures PointerToNdc(0.0, 0.0, width, height) == Ndc(-1.0, 1.0)
    ensures PointerToNdc(width, height, width, height) == Ndc(1.0, -1.0)
    ensures PointerToNdc(width / 2.0, height / 2.0, width, height) == Ndc(0.0, 0.0)
  {
    assert width / width == 1.0 && height / height == 1.0;
    assert width / 2.0 / width == 0.5 && height / 2.0 / height == 0.5;
  }
}
