/** The page state of the relighting tool: the ordered list of lights and the
    selected light id, with the handlers that turn one state into the next. */
module Lights {
  import opened Wrappers

  datatype Point = Point(x: real, y: real)

  /** One synthetic point light. `distance` is carried but never read by the
      compositor; `radius` takes whole values only (the slider has step 1). */
  datatype Light = Light(id: int, pos: Point, brightness: real, distance: real, radius: int, color: string)

  /** A `Partial<Light>`: every field is either given or absent. */
  datatype Patch = Patch(id: Option<int>, pos: Option<Point>, brightness: Option<real>,
                         distance: Option<real>, radius: Option<int>, color: Option<string>)

  /** The lights in insertion order and the selected id (`null` is `None`). */
  datatype Page = Page(lights: seq<Light>, selected: Option<int>)

  const EmptyPatch: Patch := Patch(None, None, None, None, None, None)

  /** `{ ...lt, ...p }`: the fields given in `p` replace those of `lt`. */
  function Merge(lt: Light, p: Patch): Light {
    Light(p.id.GetOr(lt.id), p.pos.GetOr(lt.pos), p.brightness.GetOr(lt.brightness),
          p.distance.GetOr(lt.distance), p.radius.GetOr(lt.radius), p.color.GetOr(lt.color))
  }

  /** The patch that only moves a light. */
  function MovePatch(x: real, y: real): Patch {
    EmptyPatch.(pos := Some(Point(x, y)))
  }

  /** The light created by "+ Light", with the id the caller minted. */
  function NewLight(id: int): Light {
    Light(id, Point(256.0, 256.0), 1.7, 800.0, 100, "#ffffff")
  }

  /** handleAddLight: without a loaded image nothing happens; otherwise a
      default light is appended and selected. */
  function AddLight(s: Page, imageLoaded: bool, id: int): (t: Page)
    ensures !imageLoaded ==> t == s
    ensures imageLoaded ==>
      && |t.lights| == |s.lights| + 1
      && t.lights[..|s.lights|] == s.lights
      && t.lights[|s.lights|] == Light(id, Point(256.0, 256.0), 1.7, 800.0, 100, "#ffffff")
      && t.selected == Some(id)
  {
    if !imageLoaded then s
    else
      assert (s.lights + [NewLight(id)])[..|s.lights|] == s.lights;
      Page(s.lights + [NewLight(id)], Some(id))
  }

  /** updateLight: every light whose id is `id` takes the fields of `p`. */
  function UpdateLight(ls: seq<Light>, id: int, p: Patch): (r: seq<Light>)
    ensures |r| == |ls|
    ensures forall k :: 0 <= k < |ls| ==> r[k] == if ls[k].id == id then Merge(ls[k], p) else ls[k]
  {
    if ls == [] then []
    else [if ls[0].id == id then Merge(ls[0], p) else ls[0]] + UpdateLight(ls[1..], id, p)
  }

  /** handleDrop: every light whose id is `id` is moved to `(x, y)`. */
  function Drop(ls: seq<Light>, id: int, x: real, y: real): (r: seq<Light>)
    ensures |r| == |ls|
    ensures forall k :: 0 <= k < |ls| ==>
      && r[k].id == ls[k].id && r[k].brightness == ls[k].brightness
      && r[k].distance == ls[k].distance && r[k].radius == ls[k].radius
      && r[k].color == ls[k].color
      && r[k].pos == (if ls[k].id == id then Point(x, y) else ls[k].pos)
  {
    if ls == [] then []
    else [if ls[0].id == id then ls[0].(pos := Point(x, y)) else ls[0]] + Drop(ls[1..], id, x, y)
  }

  /** `ls.filter(lt => lt.id !== id)`. */
  function RemoveId(ls: seq<Light>, id: int): (r: seq<Light>)
    ensures |r| <= |ls|
    ensures forall l :: l in r <==> l in ls && l.id != id
  {
    if ls == [] then []
    else if ls[0].id == id then RemoveId(ls[1..], id)
    else [ls[0]] + RemoveId(ls[1..], id)
  }

  /** onDeleteLight: with a selection, every light with the selected id is
      removed and the selection is cleared; without one nothing happens. */
  function DeleteSelected(s: Page): (t: Page)
    ensures s.selected.None? ==> t == s
    ensures s.selected.Some? ==> t.selected.None? && t.lights == RemoveId(s.lights, s.selected.value)
  {
    match s.selected
    case None => s
    case Some(id) => Page(RemoveId(s.lights, id), None)
  }

  /** setSelectedId. */
  function Select(s: Page, id: int): (t: Page)
    ensures t.lights == s.lights && t.selected == Some(id)
  {
    s.(selected := Some(id))
  }

  predicate HasId(ls: seq<Light>, id: int) {
    exists k :: 0 <= k < |ls| && ls[k].id == id
  }

  // ---------------------------------------------------------------------
  // Properties of the handlers

  /** A patch that gives no field changes nothing. */
  lemma MergeEmpty(lt: Light)
    ensures Merge(lt, EmptyPatch) == lt
  {
  }

  /** Merging the same patch twice is merging it once. */
  lemma MergeIdempotent(lt: Light, p: Patch)
    ensures Merge(Merge(lt, p), p) == Merge(lt, p)
  {
  }

  /** An update naming an id that no light carries leaves the list as it is. */
  lemma {:induction false} UpdateAbsent(ls: seq<Light>, id: int, p: Patch)
    requires !HasId(ls, id)
    ensures UpdateLight(ls, id, p) == ls
  {
    var r := UpdateLight(ls, id, p);
    forall k | 0 <= k < |ls| ensures r[k] == ls[k] {
      assert ls[k].id != id;
    }
  }

  /** Applying the same update twice equals applying it once, even when the
      patch itself renames the light. */
  lemma {:induction false} UpdateIdempotent(ls: seq<Light>, id: int, p: Patch)
    ensures UpdateLight(UpdateLight(ls, id, p), id, p) == UpdateLight(ls, id, p)
  {
    var once := UpdateLight(ls, id, p);
    var twice := UpdateLight(once, id, p);
    forall k | 0 <= k < |ls| ensures twice[k] == once[k] {
      if ls[k].id == id {
        MergeIdempotent(ls[k], p);
      }
    }
  }

  /** handleDrop is updateLight with a patch that only gives `pos`. */
  lemma {:induction false} DropIsMove(ls: seq<Light>, id: int, x: real, y: real)
    ensures Drop(ls, id, x, y) == UpdateLight(ls, id, MovePatch(x, y))
  {
    var d := Drop(ls, id, x, y);
    var u := UpdateLight(ls, id, MovePatch(x, y));
    forall k | 0 <= k < |ls| ensures d[k] == u[k] {
    }
  }

  /** Editing the brightness of a light and then setting it back restores
      the list exactly. */
  lemma {:induction false} BrightnessRestore(ls: seq<Light>, id: int, b: real, old_b: real)
    requires forall k :: 0 <= k < |ls| && ls[k].id == id ==> ls[k].brightness == old_b
    ensures UpdateLight(UpdateLight(ls, id, EmptyPatch.(brightness := Some(b))), id,
                        EmptyPatch.(brightness := Some(old_b))) == ls
  {
    var once := UpdateLight(ls, id, EmptyPatch.(brightness := Some(b)));
    var twice := UpdateLight(once, id, EmptyPatch.(brightness := Some(old_b)));
    forall k | 0 <= k < |ls| ensures twice[k] == ls[k] {
    }
  }

  /** Filtering distributes over concatenation: the lights that survive keep
      their relative order. */
  lemma {:induction false} RemoveConcat(a: seq<Light>, b: seq<Light>, id: int)
    ensures RemoveId(a + b, id) == RemoveId(a, id) + RemoveId(b, id)
  {
    if a == [] {
      assert a + b == b;
    } else {
      assert (a + b)[1..] == a[1..] + b;
      RemoveConcat(a[1..], b, id);
    }
  }

  /** Removing an id that no light carries leaves the list as it is. */
  lemma {:induction false} RemoveAbsent(ls: seq<Light>, id: int)
    requires !HasId(ls, id)
    ensures RemoveId(ls, id) == ls
  {
    if ls != [] {
      assert ls[0].id != id;
      assert !HasId(ls[1..], id) by {
        forall k | 0 <= k < |ls[1..]| ensures ls[1..][k].id != id {
          assert ls[1..][k] == ls[k + 1];
        }
      }
      RemoveAbsent(ls[1..], id);
      assert ls == [ls[0]] + ls[1..];
    }
  }

  /** Adding a light under a fresh id and deleting it again gives back the
      original list, with no selection: as if it had never been added. */
  lemma AddThenDelete(s: Page, id: int)
    requires !HasId(s.lights, id)
    ensures DeleteSelected(AddLight(s, true, id)) == Page(s.lights, None)
  {
    RemoveConcat(s.lights, [NewLight(id)], id);
    RemoveAbsent(s.lights, id);
  }
}
