/** `ConstellationMapV3`, the prototype constellation map: a 4000 x 3000
    world over the static artesanas, wheel zoom about the mouse, click
    selection by a pick radius, and the disciplina grid `applyFilters` lays
    out. The grouping and the layout tell artesanas apart by their position
    in the world list, as the source tells its objects apart by identity. */
module ConstellationMapV3 {
  import opened Wrappers
  import opened Sequences
  import opened Artesanas
  import opened ViewTransform

  const WORLD_WIDTH: real := 4000.0
  const WORLD_HEIGHT: real := 3000.0

  const WHEEL_MIN: real := 0.1
  const WHEEL_MAX: real := 3.0

  /** The click radius, in screen pixels. */
  const PICK_RADIUS: real := 50.0

  const GROUP_SPACING: real := 200.0
  const ITEM_SPACING: real := 80.0
  /** Columns of the grid inside a group. */
  const GROUP_COLUMNS: nat := 4

  /** A world artesana: its record, its random world position, its screen
      position, the target `applyFilters` moves it to, and its opacity and scale. */
  datatype WorldArtesana = WorldArtesana(
    artesana: Artesana, x: real, y: real, screenX: real, screenY: real,
    targetX: real, targetY: real, opacity: real, scale: real)

  /** The memoised `worldArtesanas`: each artesana at its drawn world
      position, which is also its target, at screen (0, 0), opaque and at
      scale 1. The ring radius and angle jitter that draw `positions[i]` are
      random and trigonometric, and are not part of this model. */
  function InitialWorld(artesanas: seq<Artesana>, positions: seq<Point>): (r: seq<WorldArtesana>)
    requires |positions| == |artesanas|
    ensures |r| == |artesanas|
    ensures forall i :: 0 <= i < |r| ==>
      && r[i].artesana == artesanas[i]
      && r[i].x == positions[i].x && r[i].y == positions[i].y
      && r[i].targetX == r[i].x && r[i].targetY == r[i].y
      && r[i].screenX == 0.0 && r[i].screenY == 0.0
      && r[i].opacity == 1.0 && r[i].scale == 1.0
  {
    seq(|artesanas|, i requires 0 <= i < |artesanas| =>
      WorldArtesana(artesanas[i], positions[i].x, positions[i].y, 0.0, 0.0,
        positions[i].x, positions[i].y, 1.0, 1.0))
  }

  /** The container's bounding rectangle; `None` while not measured. */
  datatype Rect = Rect(left: real, top: real, width: real, height: real)

  /** The memoised `filteredArtesanas`: the world artesanas matching every
      active selection, in world order. */
  function FilteredArtesanas(world: seq<WorldArtesana>, f: Filters): (r: seq<WorldArtesana>)
    ensures forall a :: a in r ==> Matches(a.artesana, f)
    ensures forall a :: multiset(r)[a] == if Matches(a.artesana, f) then multiset(world)[a] else 0
    ensures IsSubsequence(r, world)
  {
    Filter(world, (a: WorldArtesana) => Matches(a.artesana, f))
  }

  /** `screenArtesanas`: the filtered artesanas with the screen position of
      their target. */
  function ScreenArtesanas(filtered: seq<WorldArtesana>, v: ViewState): (r: seq<WorldArtesana>)
    ensures |r| == |filtered|
    ensures forall i :: 0 <= i < |r| ==>
      r[i] == filtered[i].(screenX := r[i].screenX, screenY := r[i].screenY) &&
      Point(r[i].screenX, r[i].screenY) == WorldToScreen(v, Point(filtered[i].targetX, filtered[i].targetY))
  {
    seq(|filtered|, i requires 0 <= i < |filtered| =>
      var s := WorldToScreen(v, Point(filtered[i].targetX, filtered[i].targetY));
      filtered[i].(screenX := s.x, screenY := s.y))
  }

  predicate InWheelBand(scale: real) {
    WHEEL_MIN <= scale <= WHEEL_MAX
  }

  /** The scale `handleWheel` moves to: 0.9 times the scale when scrolling
      down, 1.1 times otherwise, clamped to [0.1, 3]. Whatever the scale
      before, the result is in the band; from inside the band, scrolling down
      never zooms in and scrolling up never zooms out. */
  function WheelScale(scale: real, deltaY: real): (r: real)
    ensures InWheelBand(r)
    ensures var t := scale * (if deltaY > 0.0 then 0.9 else 1.1);
      && (InWheelBand(t) ==> r == t)
      && (t < WHEEL_MIN ==> r == WHEEL_MIN)
      && (t > WHEEL_MAX ==> r == WHEEL_MAX)
    ensures InWheelBand(scale) && deltaY > 0.0 ==> r <= scale
    ensures InWheelBand(scale) && deltaY <= 0.0 ==> scale <= r
  {
    var delta := if deltaY > 0.0 then 0.9 else 1.1;
    var capped := if scale * delta < WHEEL_MAX then scale * delta else WHEEL_MAX;
    if WHEEL_MIN > capped then WHEEL_MIN else capped
  }

  function Sq(x: real): real {
    x * x
  }

  /** The test inside `getNearestArtesana`: the target lies closer to `w`
      than `50 / scale`, compared on squares. */
  predicate Hit(a: WorldArtesana, w: Point, scale: real)
    requires scale > 0.0
  {
    Sq(a.targetX - w.x) + Sq(a.targetY - w.y) < Sq(PICK_RADIUS / scale)
  }

  /** `getNearestArtesana`: the first candidate, in list order, that the
      point hits, or none. */
  function NearestArtesana(candidates: seq<WorldArtesana>, w: Point, scale: real): (r: Option<WorldArtesana>)
    requires scale > 0.0
    ensures r.None? <==> forall k :: 0 <= k < |candidates| ==> !Hit(candidates[k], w, scale)
    ensures r.Some? ==>
      exists k :: 0 <= k < |candidates| && candidates[k] == r.value && Hit(candidates[k], w, scale) &&
        forall j :: 0 <= j < k ==> !Hit(candidates[j], w, scale)
  {
    if candidates == [] then None
    else if Hit(candidates[0], w, scale) then Some(candidates[0])
    else
      var rest := NearestArtesana(candidates[1..], w, scale);
      assert forall k :: 1 <= k < |candidates| ==> candidates[k] == candidates[1..][k - 1];
      if rest.Some? then
        var k :| 0 <= k < |candidates[1..]| && candidates[1..][k] == rest.value &&
          Hit(candidates[1..][k], w, scale) && forall j :: 0 <= j < k ==> !Hit(candidates[1..][j], w, scale);
        assert candidates[k + 1] == rest.value;
        rest
      else
        rest
  }

  lemma SqScale(d: real, s: real)
    ensures Sq(d * s) == Sq(d) * Sq(s)
  {
  }

  lemma SqQuotient(r: real, s: real)
    requires s > 0.0
    ensures Sq(r / s) * Sq(s) == Sq(r)
  {
    assert (r / s) * s == r;
  }

  /** The pick radius is fixed in screen space: a click at screen point `c`
      hits an artesana exactly when the artesana's target is drawn less than
      50 pixels from `c`, at every scale. */
  lemma PickRadiusInScreenSpace(a: WorldArtesana, v: ViewState, c: Point)
    requires v.scale > 0.0
    ensures
      var t := WorldToScreen(v, Point(a.targetX, a.targetY));
      Hit(a, ScreenToWorld(v, c), v.scale) <==> Sq(t.x - c.x) + Sq(t.y - c.y) < Sq(PICK_RADIUS)
  {
    var w := ScreenToWorld(v, c);
    var t := WorldToScreen(v, Point(a.targetX, a.targetY));
    var s := v.scale;
    var dx := a.targetX - w.x;
    var dy := a.targetY - w.y;
    assert t.x - c.x == dx * s by {
      assert c.x == (w.x - v.x) * s;
    }
    assert t.y - c.y == dy * s by {
      assert c.y == (w.y - v.y) * s;
    }
    SqScale(dx, s);
    SqScale(dy, s);
    SqQuotient(PICK_RADIUS, s);
    assert Sq(s) > 0.0;
    assert (Sq(dx) + Sq(dy)) * Sq(s) == Sq(t.x - c.x) + Sq(t.y - c.y);
    MulLessIff(Sq(dx) + Sq(dy), Sq(PICK_RADIUS / s), Sq(s));
  }

  lemma MulLessIff(x: real, y: real, k: real)
    requires k > 0.0
    ensures x < y <==> x * k < y * k
  {
    assert y * k - x * k == (y - x) * k;
  }

  // ---------------------------------------------------------------------
  // The grouping and grid of `applyFilters`

  predicate Increasing(s: seq<nat>) {
    forall k, l :: 0 <= k < l < |s| ==> s[k] < s[l]
  }

  predicate IndicesIn(vis: seq<nat>, world: seq<WorldArtesana>) {
    forall k :: 0 <= k < |vis| ==> vis[k] < |world|
  }

  /** The positions of the world artesanas the filter keeps, in increasing
      order: the objects `filteredArtesanas.includes` finds. */
  function VisibleIndices(world: seq<WorldArtesana>, f: Filters): (r: seq<nat>)
    ensures IndicesIn(r, world) && Increasing(r)
    ensures forall k :: 0 <= k < |r| ==> Matches(world[r[k]].artesana, f)
    ensures forall i :: 0 <= i < |world| && Matches(world[i].artesana, f) ==> i in r
  {
    if world == [] then []
    else
      var n := |world| - 1;
      var prev := VisibleIndices(world[..n], f);
      if Matches(world[n].artesana, f) then prev + [n] else prev
  }

  /** The disciplina of each visible artesana, in visiting order. */
  function DisciplinasOf(world: seq<WorldArtesana>, vis: seq<nat>): (r: seq<string>)
    requires IndicesIn(vis, world)
    ensures |r| == |vis|
    ensures forall k :: 0 <= k < |vis| ==> r[k] == world[vis[k]].artesana.disciplina
  {
    seq(|vis|, k requires 0 <= k < |vis| => world[vis[k]].artesana.disciplina)
  }

  /** The keys of `groupedArtesanas`, in the order a `Map` enumerates them:
      every disciplina among the visible artesanas, once, by first appearance. */
  function GroupKeys(world: seq<WorldArtesana>, vis: seq<nat>): (r: seq<string>)
    requires IndicesIn(vis, world)
    ensures NoDuplicates(r)
    ensures forall d :: d in r <==> exists k :: 0 <= k < |vis| && world[vis[k]].artesana.disciplina == d
  {
    var ds := DisciplinasOf(world, vis);
    var r := Dedup(ds);
    forall d | d in ds ensures exists k :: 0 <= k < |vis| && world[vis[k]].artesana.disciplina == d {
      var k :| 0 <= k < |ds| && ds[k] == d;
    }
    r
  }

  /** World position `x` holds an artesana of disciplina `d`. */
  predicate OfDisciplina(world: seq<WorldArtesana>, x: nat, d: string) {
    x < |world| && world[x].artesana.disciplina == d
  }

  /** The group of disciplina `d`: the visible artesanas with that
      disciplina, in visiting order. */
  function GroupMembers(world: seq<WorldArtesana>, vis: seq<nat>, d: string): (r: seq<nat>)
    requires IndicesIn(vis, world)
    ensures |r| <= |vis|
    ensures forall x :: x in r <==> x in vis && OfDisciplina(world, x, d)
    ensures Increasing(vis) ==> Increasing(r)
  {
    if vis == [] then []
    else
      var n := |vis| - 1;
      var prev := GroupMembers(world, vis[..n], d);
      assert vis == vis[..n] + [vis[n]];
      if OfDisciplina(world, vis[n], d) then
        assert Increasing(vis) ==> forall k :: 0 <= k < |prev| ==> prev[k] < vis[n] by {
          if Increasing(vis) {
            forall k | 0 <= k < |prev| ensures prev[k] < vis[n] {
              assert prev[k] in vis[..n];
            }
          }
        }
        prev + [vis[n]]
      else
        prev
  }

  /** Every key names a group and every group has its key. */
  ghost predicate SameKeys(keys: seq<string>, groups: map<string, seq<nat>>) {
    forall d :: d in groups <==> d in keys
  }

  /** Every group holds exactly the members of its disciplina among `vis`. */
  ghost predicate GroupsHold(world: seq<WorldArtesana>, vis: seq<nat>, groups: map<string, seq<nat>>)
    requires IndicesIn(vis, world)
  {
    forall d :: d in groups ==> groups[d] == GroupMembers(world, vis, d)
  }

  /** `keys` and `groups` are the grouping of the artesanas at `vis`. */
  ghost predicate GroupedBy(world: seq<WorldArtesana>, vis: seq<nat>, keys: seq<string>, groups: map<string, seq<nat>>)
    requires IndicesIn(vis, world)
  {
    keys == GroupKeys(world, vis) && SameKeys(keys, groups) && GroupsHold(world, vis, groups)
  }

  /** `groupedArtesanas` filled by the `forEach`: visiting the visible
      artesanas in order, create the group of a disciplina when it is first
      seen (its key goes last), then push the artesana onto its group. */
  method GroupByDisciplina(world: seq<WorldArtesana>, vis: seq<nat>)
    returns (keys: seq<string>, groups: map<string, seq<nat>>)
    requires IndicesIn(vis, world)
    ensures keys == GroupKeys(world, vis)
    ensures forall d :: d in groups <==> d in keys
    ensures forall d :: d in groups ==> groups[d] == GroupMembers(world, vis, d)
  {
    keys := [];
    groups := map[];
    var n := 0;
    assert DisciplinasOf(world, vis[..0]) == [];
    while n < |vis|
      invariant 0 <= n <= |vis|
      invariant GroupedBy(world, vis[..n], keys, groups)
    {
      var i := vis[n];
      var group := world[i].artesana.disciplina;
      GroupStep(world, vis, n, keys, groups);
      if group !in groups {
        groups := groups[group := []];
        keys := keys + [group];
      }
      groups := groups[group := groups[group] + [i]];
      n := n + 1;
    }
    assert vis[..n] == vis;
  }

  /** One turn of the `forEach` keeps the grouping up to date. */
  lemma GroupStep(world: seq<WorldArtesana>, vis: seq<nat>, n: nat, keys: seq<string>, groups: map<string, seq<nat>>)
    requires IndicesIn(vis, world) && n < |vis|
    requires GroupedBy(world, vis[..n], keys, groups)
    ensures
      var group := world[vis[n]].artesana.disciplina;
      var keys' := if group in groups then keys else keys + [group];
      var created := if group in groups then groups else groups[group := []];
      GroupedBy(world, vis[..n + 1], keys', created[group := created[group] + [vis[n]]])
  {
    var group := world[vis[n]].artesana.disciplina;
    var created := if group in groups then groups else groups[group := []];
    GroupKeysStep(world, vis, n);
    KeysFollowGroups(keys, groups, group, vis[n]);
    GroupMembersPush(world, vis, n, groups, created);
  }

  /** Creating a missing group adds its key last, and a push adds no key. */
  lemma KeysFollowGroups(keys: seq<string>, groups: map<string, seq<nat>>, group: string, i: nat)
    requires SameKeys(keys, groups)
    ensures
      var keys' := if group in groups then keys else keys + [group];
      var created := if group in groups then groups else groups[group := []];
      SameKeys(keys', created[group := created[group] + [i]])
  {
  }

  /** The pushes of one turn keep every group equal to its members so far. */
  lemma GroupMembersPush(world: seq<WorldArtesana>, vis: seq<nat>, n: nat,
                         groups: map<string, seq<nat>>, created: map<string, seq<nat>>)
    requires IndicesIn(vis, world) && n < |vis|
    requires GroupsHold(world, vis[..n], groups)
    requires SameKeys(GroupKeys(world, vis[..n]), groups)
    requires var group := world[vis[n]].artesana.disciplina;
      created == if group in groups then groups else groups[group := []]
    ensures var group := world[vis[n]].artesana.disciplina;
      GroupsHold(world, vis[..n + 1], created[group := created[group] + [vis[n]]])
  {
    var group := world[vis[n]].artesana.disciplina;
    var groups' := created[group := created[group] + [vis[n]]];
    if group !in groups {
      UnseenDisciplinaHasNoMembers(world, vis[..n], group);
    }
    assert created[group] == GroupMembers(world, vis[..n], group);
    forall d | d in groups' ensures groups'[d] == GroupMembers(world, vis[..n + 1], d) {
      GroupMembersStep(world, vis, n, d);
      if d != group {
        assert groups'[d] == groups[d];
      }
    }
  }

  /** A disciplina no visited artesana has gets an empty group. */
  lemma {:induction false} UnseenDisciplinaHasNoMembers(world: seq<WorldArtesana>, vis: seq<nat>, d: string)
    requires IndicesIn(vis, world)
    requires forall k :: 0 <= k < |vis| ==> world[vis[k]].artesana.disciplina != d
    ensures GroupMembers(world, vis, d) == []
  {
    if vis != [] {
      UnseenDisciplinaHasNoMembers(world, vis[..|vis| - 1], d);
    }
  }

  /** Visiting one more artesana adds its disciplina as the last key unless
      it is already a key. */
  lemma GroupKeysStep(world: seq<WorldArtesana>, vis: seq<nat>, n: nat)
    requires IndicesIn(vis, world) && n < |vis|
    ensures var group := world[vis[n]].artesana.disciplina;
      var keys := GroupKeys(world, vis[..n]);
      GroupKeys(world, vis[..n + 1]) == if group in keys then keys else keys + [group]
  {
    var group := world[vis[n]].artesana.disciplina;
    var prev := DisciplinasOf(world, vis[..n]);
    var next := DisciplinasOf(world, vis[..n + 1]);
    assert next == prev + [group];
    assert next[..|next| - 1] == prev;
  }

  /** Visiting one more artesana pushes it onto its disciplina's group only. */
  lemma GroupMembersStep(world: seq<WorldArtesana>, vis: seq<nat>, n: nat, d: string)
    requires IndicesIn(vis, world) && n < |vis|
    ensures GroupMembers(world, vis[..n + 1], d) ==
      if world[vis[n]].artesana.disciplina == d then GroupMembers(world, vis[..n], d) + [vis[n]]
      else GroupMembers(world, vis[..n], d)
  {
    assert vis[..n + 1][..n] == vis[..n];
  }

  /** Where an artesana lands in its group's grid: four columns, filled row by row. */
  datatype Cell = Cell(row: nat, col: nat)

  function CellOf(indexInGroup: nat): (c: Cell)
    ensures c.col < GROUP_COLUMNS
    ensures c.row * GROUP_COLUMNS + c.col == indexInGroup
  {
    Cell(indexInGroup / GROUP_COLUMNS, indexInGroup % GROUP_COLUMNS)
  }

  /** Distinct positions in a group get distinct cells. */
  lemma CellOfInjective(k: nat, l: nat)
    requires k != l
    ensures CellOf(k) != CellOf(l)
  {
  }

  /** The target of the member at `indexInGroup` of a group of `groupSize`
      artesanas, the `groupIndex`-th group: groups are 200 apart around the
      world's centre, members 80 apart in the grid. */
  function GridTarget(groupIndex: nat, indexInGroup: nat, groupSize: nat): Point {
    var c := CellOf(indexInGroup);
    Point(
      WORLD_WIDTH / 2.0 + (groupIndex as real - 2.0) * GROUP_SPACING + (c.col as real - 1.5) * ITEM_SPACING,
      WORLD_HEIGHT / 2.0 + ((c.row as int - groupSize / 8) as real) * ITEM_SPACING)
  }

  /** The grid never puts two members of one group, or two members of
      different groups, on the same target. */
  lemma GridTargetInjective(g: nat, k: nat, g': nat, k': nat, size: nat, size': nat)
    requires g == g' ==> size == size'
    requires (g, k) != (g', k')
    ensures GridTarget(g, k, size) != GridTarget(g', k', size')
  {
    var c, c' := CellOf(k), CellOf(k');
    if g == g' {
      CellOfInjective(k, k');
    } else {
      // 200 g + 80 col = 200 g' + 80 col' would need 5 (g - g') = 2 (col' - col),
      // impossible for distinct groups with both columns in [0, 4)
      assert (g as real - 2.0) * GROUP_SPACING + (c.col as real - 1.5) * ITEM_SPACING
        != (g' as real - 2.0) * GROUP_SPACING + (c'.col as real - 1.5) * ITEM_SPACING by {
        assert 5 * g + 2 * c.col != 5 * g' + 2 * c'.col;
      }
    }
  }

  /** An artesana the filter hides: it stays where it is, transparent and at half size. */
  function Hidden(a: WorldArtesana): WorldArtesana {
    a.(targetX := a.x, targetY := a.y, opacity := 0.0, scale := 0.5)
  }

  /** A visible artesana moved to its grid target, opaque and at full size. */
  function Shown(a: WorldArtesana, target: Point): WorldArtesana {
    a.(targetX := target.x, targetY := target.y, opacity := 1.0, scale := 1.0)
  }

  /** The layout `applyFilters` computes under the selections `f`, for the
      artesana at world position `i`. */
  function LayoutAt(world: seq<WorldArtesana>, f: Filters, i: nat): WorldArtesana
    requires i < |world|
  {
    if Matches(world[i].artesana, f) then
      var vis := VisibleIndices(world, f);
      VisibleMembership(world, f, i);
      PlaceInGroup(world[i], i, GroupKeys(world, vis), GroupMembers(world, vis, world[i].artesana.disciplina))
    else
      Hidden(world[i])
  }

  /** A visible artesana placed by its group's position among the `keys` and
      its own position among the group's `members`. */
  function PlaceInGroup(a: WorldArtesana, i: nat, keys: seq<string>, members: seq<nat>): WorldArtesana
    requires a.artesana.disciplina in keys && i in members
  {
    Shown(a, GridTarget(IndexOf(keys, a.artesana.disciplina) as nat, IndexOf(members, i) as nat, |members|))
  }

  /** The list `applyFilters` returns: every world artesana, in order, laid
      out under `f`. */
  function Layout(world: seq<WorldArtesana>, f: Filters): (r: seq<WorldArtesana>)
    ensures |r| == |world|
    ensures forall i :: 0 <= i < |world| ==> r[i] == LayoutAt(world, f, i)
  {
    seq(|world|, i requires 0 <= i < |world| => LayoutAt(world, f, i))
  }

  /** What the layout does to one artesana: a hidden one keeps its place as
      its target, with opacity 0 and scale 1/2; a visible one is placed in
      the grid of its disciplina's group, at the group's position among the
      groups and its own position in the group, opaque and at scale 1. */
  lemma LayoutAtSpec(world: seq<WorldArtesana>, f: Filters, i: nat)
    requires i < |world|
    ensures var r := LayoutAt(world, f, i);
      && r.artesana == world[i].artesana && r.x == world[i].x && r.y == world[i].y
      && r.screenX == world[i].screenX && r.screenY == world[i].screenY
      && (!Matches(world[i].artesana, f) ==>
            r.targetX == world[i].x && r.targetY == world[i].y && r.opacity == 0.0 && r.scale == 0.5)
      && (Matches(world[i].artesana, f) ==>
            var vis := VisibleIndices(world, f);
            var d := world[i].artesana.disciplina;
            var keys := GroupKeys(world, vis);
            var members := GroupMembers(world, vis, d);
            && 0 <= IndexOf(keys, d) && keys[IndexOf(keys, d)] == d
            && 0 <= IndexOf(members, i) && members[IndexOf(members, i)] == i
            && Point(r.targetX, r.targetY) == GridTarget(IndexOf(keys, d), IndexOf(members, i), |members|)
            && r.opacity == 1.0 && r.scale == 1.0)
  {
    if Matches(world[i].artesana, f) {
      VisibleMembership(world, f, i);
    }
  }

  /** A visible artesana's disciplina is a group key, and the artesana is a
      member of that group. */
  lemma VisibleMembership(world: seq<WorldArtesana>, f: Filters, i: nat)
    requires i < |world| && Matches(world[i].artesana, f)
    ensures var vis := VisibleIndices(world, f);
      var d := world[i].artesana.disciplina;
      d in GroupKeys(world, vis) && i in GroupMembers(world, vis, d)
  {
    var vis := VisibleIndices(world, f);
    var k :| 0 <= k < |vis| && vis[k] == i;
    assert world[vis[k]].artesana.disciplina == world[i].artesana.disciplina;
  }

  /** Every visible artesana lands in exactly one group, its disciplina's. */
  lemma VisibleInExactlyOneGroup(world: seq<WorldArtesana>, f: Filters, i: nat, d: string)
    requires i < |world| && Matches(world[i].artesana, f)
    requires d in GroupKeys(world, VisibleIndices(world, f))
    ensures i in GroupMembers(world, VisibleIndices(world, f), d) <==> d == world[i].artesana.disciplina
  {
    VisibleMembership(world, f, i);
  }

  /** No two visible artesanas are given the same target. */
  lemma VisibleTargetsDistinct(world: seq<WorldArtesana>, f: Filters, i: nat, j: nat)
    requires i < |world| && j < |world| && i != j
    requires Matches(world[i].artesana, f) && Matches(world[j].artesana, f)
    ensures var ri, rj := LayoutAt(world, f, i), LayoutAt(world, f, j);
      (ri.targetX, ri.targetY) != (rj.targetX, rj.targetY)
  {
    LayoutAtSpec(world, f, i);
    LayoutAtSpec(world, f, j);
    var vis := VisibleIndices(world, f);
    var keys := GroupKeys(world, vis);
    var di, dj := world[i].artesana.disciplina, world[j].artesana.disciplina;
    var mi, mj := GroupMembers(world, vis, di), GroupMembers(world, vis, dj);
    var gi, gj := IndexOf(keys, di), IndexOf(keys, dj);
    var ki, kj := IndexOf(mi, i), IndexOf(mj, j);
    if gi == gj {
      assert di == dj;
      assert ki != kj;
    }
    GridTargetInjective(gi, ki, gj, kj, |mi|, |mj|);
  }

  /** The component's `viewState`, `dragState`, `filters` and
      `selectedArtesana`, over the fixed world list. */
  class MapViewportV3 {
    const world: seq<WorldArtesana>
    var view: ViewState
    var drag: DragState
    var filters: Filters
    var selected: Option<WorldArtesana>

    ghost predicate Valid()
      reads this
    {
      InWheelBand(view.scale)
    }

    /** The initial state: view (0, 0) at scale 1, not dragging, no filter,
        nothing selected. */
    constructor (world: seq<WorldArtesana>)
      ensures Valid()
      ensures this.world == world
      ensures view == ViewState(0.0, 0.0, 1.0)
      ensures drag == DragState(false, 0.0, 0.0, 0.0, 0.0)
      ensures filters == Filters(None, None) && selected == None
    {
      this.world := world;
      view := ViewState(0.0, 0.0, 1.0);
      drag := DragState(false, 0.0, 0.0, 0.0, 0.0);
      filters := Filters(None, None);
      selected := None;
    }

    /** `handleMouseDown`: start dragging from the pointer and the current view. */
    method MouseDown(clientX: real, clientY: real)
      requires Valid()
      modifies this
      ensures Valid()
      ensures drag == DragState(true, clientX, clientY, old(view).x, old(view).y)
      ensures view == old(view) && filters == old(filters) && selected == old(selected)
    {
      drag := DragState(true, clientX, clientY, view.x, view.y);
    }

    /** `handleMouseMove`: while dragging, the view follows the pointer at the
        current scale; otherwise nothing changes. */
    method MouseMove(clientX: real, clientY: real)
      requires Valid()
      modifies this
      ensures Valid()
      ensures old(drag).isDragging ==>
        var p := DragPosition(old(drag), Point(clientX, clientY), old(view).scale);
        view == ViewState(p.x, p.y, old(view).scale)
      ensures !old(drag).isDragging ==> view == old(view)
      ensures drag == old(drag) && filters == old(filters) && selected == old(selected)
    {
      if !drag.isDragging {
        return;
      }
      var p := DragPosition(drag, Point(clientX, clientY), view.scale);
      view := view.(x := p.x, y := p.y);
    }

    /** `handleMouseUp`, also bound to mouse-leave: stop dragging and keep the
        recorded start. */
    method MouseUp()
      requires Valid()
      modifies this
      ensures Valid()
      ensures drag == old(drag).(isDragging := false)
      ensures view == old(view) && filters == old(filters) && selected == old(selected)
    {
      drag := drag.(isDragging := false);
    }

    /** `handleWheel`: once the container is measured, zoom to `WheelScale`
        about the mouse position inside the container. */
    method Wheel(rect: Option<Rect>, clientX: real, clientY: real, deltaY: real)
      requires Valid()
      modifies this
      ensures Valid()
      ensures rect.None? ==> view == old(view)
      ensures rect.Some? ==>
        var mouse := Point(clientX - rect.value.left, clientY - rect.value.top);
        view == ZoomAbout(old(view), mouse, WheelScale(old(view).scale, deltaY))
      ensures drag == old(drag) && filters == old(filters) && selected == old(selected)
    {
      if rect.None? {
        return;
      }
      var mouse := Point(clientX - rect.value.left, clientY - rect.value.top);
      view := ZoomAbout(view, mouse, WheelScale(view.scale, deltaY));
    }

    /** `handleDoubleClick`: back to view (0, 0) at scale 1. */
    method DoubleClick()
      requires Valid()
      modifies this
      ensures Valid()
      ensures view == ViewState(0.0, 0.0, 1.0)
      ensures drag == old(drag) && filters == old(filters) && selected == old(selected)
    {
      view := ViewState(0.0, 0.0, 1.0);
    }

    /** `handleTouchStart`: a drag begins only with exactly one touch. */
    method TouchStart(touches: seq<Point>)
      requires Valid()
      modifies this
      ensures Valid()
      ensures |touches| == 1 ==> drag == DragState(true, touches[0].x, touches[0].y, old(view).x, old(view).y)
      ensures |touches| != 1 ==> drag == old(drag)
      ensures view == old(view) && filters == old(filters) && selected == old(selected)
    {
      if |touches| == 1 {
        drag := DragState(true, touches[0].x, touches[0].y, view.x, view.y);
      }
    }

    /** `handleTouchMove`: like a mouse move, and ignored unless exactly one
        finger is down. */
    method TouchMove(touches: seq<Point>)
      requires Valid()
      modifies this
      ensures Valid()
      ensures old(drag).isDragging && |touches| == 1 ==>
        var p := DragPosition(old(drag), touches[0], old(view).scale);
        view == ViewState(p.x, p.y, old(view).scale)
      ensures !old(drag).isDragging || |touches| != 1 ==> view == old(view)
      ensures drag == old(drag) && filters == old(filters) && selected == old(selected)
    {
      if !drag.isDragging || |touches| != 1 {
        return;
      }
      var p := DragPosition(drag, touches[0], view.scale);
      view := view.(x := p.x, y := p.y);
    }

    /** `handleTouchEnd`: stop dragging and keep the recorded start. */
    method TouchEnd()
      requires Valid()
      modifies this
      ensures Valid()
      ensures drag == old(drag).(isDragging := false)
      ensures view == old(view) && filters == old(filters) && selected == old(selected)
    {
      drag := drag.(isDragging := false);
    }

    /** `handleClick`: unless the container is unmeasured or a drag is under
        way, map the click into the world and select the first filtered
        artesana it hits; a miss keeps the selection. */
    method Click(rect: Option<Rect>, clientX: real, clientY: real)
      requires Valid()
      modifies this
      ensures Valid()
      ensures rect.None? || old(drag).isDragging ==> selected == old(selected)
      ensures rect.Some? && !old(drag).isDragging ==>
        var w := ScreenToWorld(old(view), Point(clientX - rect.value.left, clientY - rect.value.top));
        var hit := NearestArtesana(FilteredArtesanas(world, old(filters)), w, old(view).scale);
        selected == if hit.Some? then hit else old(selected)
      ensures view == old(view) && drag == old(drag) && filters == old(filters)
    {
      if rect.None? || drag.isDragging {
        return;
      }
      var w := ScreenToWorld(view, Point(clientX - rect.value.left, clientY - rect.value.top));
      var clicked := NearestArtesana(FilteredArtesanas(world, filters), w, view.scale);
      if clicked.Some? {
        selected := clicked;
      }
    }

    /** `applyFilters`: lays the world out by the groups of the artesanas the
        filter in force keeps (the selections before this call), then stores
        the new selections. */
    method ApplyFilters(newFilters: Filters) returns (updated: seq<WorldArtesana>)
      requires Valid()
      modifies this
      ensures Valid()
      ensures updated == Layout(world, old(filters))
      ensures filters == newFilters
      ensures view == old(view) && drag == old(drag) && selected == old(selected)
    {
      var vis := VisibleIndices(world, filters);
      var keys, groups := GroupByDisciplina(world, vis);
      forall i | 0 <= i < |world| && i in vis
        ensures world[i].artesana.disciplina in keys && world[i].artesana.disciplina in groups
        ensures i in groups[world[i].artesana.disciplina]
      {
        VisibleMembership(world, filters, i);
      }
      updated := seq(|world|, i requires 0 <= i < |world| =>
        if i in vis then PlaceInGroup(world[i], i, keys, groups[world[i].artesana.disciplina])
        else Hidden(world[i]));
      forall i | 0 <= i < |world| ensures updated[i] == LayoutAt(world, filters, i) {
        if i in vis {
          VisibleMembership(world, filters, i);
        }
      }
      filters := newFilters;
    }
  }
}
