# Artesanas constellation: a Dafny model

This project models the logic behind the artesanas site, a catalogue of Chilean women
artisans. It has four parts:

- **The constellation map's viewport** (`ConstellationMapImproved`, the map the artesanas page
  renders, and the prototype `ConstellationMapV3`). The model covers:
  - the world-to-screen transform `screen = (world - view) * scale` and its inverse;
  - drag-to-pan with the mouse or one finger;
  - zoom clamped to a scale band, keeping a focal point fixed (buttons about the container's
    centre in the first map, the wheel about the mouse in the prototype);
  - reset;
  - click selection with a pick radius of 50 screen pixels (prototype);
  - the integer ring/slot arithmetic of the radial placement;
  - the disciplina/region filter;
  - the prototype's grouping of the visible artesanas by disciplina into grids.
- **The normalisation of the content API's records** into artesanas: the keyword region
  classifier, the field mapping with its fallbacks, and the dropping of unusable records.
- **The five-minute single-key cache** in front of the fetch.
- **The `useArtesanas` hook**: the two-criterion filter, the sorted list of distinct
  disciplinas, and the `loading`/`error` transitions of a load.

Coordinates are exact reals. Integers are unbounded. The clock, the fetched data, the
container's measured rectangle and the random draws of the layouts are parameters.

Modules, one per file:

- `Wrappers`: `Option` and `Result`.
- `Sequences`: `filter`, `indexOf`, and the first-appearance order of a `Set` or of a `Map`'s keys.
- `Text`: `includes`, lower-casing, and decimal rendering of ids.
- `StringOrder`: the default `sort` order on strings, and insertion sort.
- `Artesanas`: the record types and the filter predicate.
- `ViewTransform`: the viewport algebra shared by both maps.
- `ConstellationMapImproved`, `ConstellationMapV3`, `ArtesanasApi`, `UseArtesanas`: one per source file.

Handlers that update component state are methods of a class (`MapViewport`, `MapViewportV3`,
`ArtesanasState`, `ArtesanasCache`). Each method states the whole new state. The two viewport
classes, `MapViewport` and `MapViewportV3`, also keep their invariant `Valid()`: the scale lies in
the map's zoom band.

## Model

| member | source | states |
|---|---|---|
| Sequences.Filter | src/hooks/useArtesanas.ts:49-57 | `filter` keeps exactly the elements satisfying the predicate, each with its multiplicity, in order, and never lengthens the list |
| Sequences.FilterIdempotent | src/hooks/useArtesanas.ts:49-57 | filtering twice with the same predicate equals filtering once |
| Sequences.FilterKeepsAll | src/hooks/useArtesanas.ts:48-58 | a predicate every element satisfies returns the list unchanged |
| Sequences.IndexOf | src/components/ConstellationMapV3.tsx:140-145 | `indexOf` is -1 exactly when the element is absent, and otherwise the first position holding it |
| Sequences.Dedup | src/hooks/useArtesanas.ts:63 | `new Set(xs)` holds every element of `xs` exactly once, with no repeats, in first-appearance order |
| Sequences.FirstIndexInPrefix | src/components/ConstellationMapV3.tsx:124-132 | appending to a list does not move the first occurrence of an element already present |
| Text.Lower | src/utils/artesanasApi.ts:6 | lower-casing maps every character through the case table and keeps the length |
| Text.LowerIdempotent | src/utils/artesanasApi.ts:6 | lower-casing a lower-cased string changes nothing |
| Text.LowerOfUpper | src/utils/artesanasApi.ts:6 | upper-casing first does not change the lower-cased result |
| Text.NatToString | src/utils/artesanasApi.ts:53 | an id renders as a non-empty string of decimal digits without a leading zero |
| Text.ParseNatToString | src/utils/artesanasApi.ts:53 | the rendered id reads back as the numeric id, so distinct ids give distinct strings |
| StringOrder.LexLeTotal | src/hooks/useArtesanas.ts:64 | any two strings are comparable in the default sort order |
| StringOrder.LexLeAntisymmetric | src/hooks/useArtesanas.ts:64 | two strings each at most the other are equal |
| StringOrder.LexLeTransitive | src/hooks/useArtesanas.ts:64 | the default sort order is transitive |
| StringOrder.Insert | src/hooks/useArtesanas.ts:64 | inserting into a sorted list keeps it sorted and adds exactly that string |
| StringOrder.Sort | src/hooks/useArtesanas.ts:64 | `sort()` returns a sorted permutation of its input |
| StringOrder.SortNoDuplicates | src/hooks/useArtesanas.ts:63-64 | sorting a list without repeats introduces none |
| StringOrder.StrictlySortedUnique | src/hooks/useArtesanas.ts:63-64 | two strictly sorted lists with the same strings are equal |
| UseArtesanas.FilteredArtesanas | src/hooks/useArtesanas.ts:47-59 | the result holds exactly the artesanas matching every active selection, with their multiplicities, in order, and is no longer than the input |
| UseArtesanas.InactiveFiltersKeepAll | src/hooks/useArtesanas.ts:48-58 | with both selections null or empty, the list comes back unchanged |
| UseArtesanas.FilteredArtesanasIdempotent | src/hooks/useArtesanas.ts:49-57 | filtering the filtered list again with the same selections changes nothing |
| UseArtesanas.DisciplinaList | src/hooks/useArtesanas.ts:63 | the mapped list holds the disciplina of each artesana, position by position |
| UseArtesanas.Disciplinas | src/hooks/useArtesanas.ts:62-65 | `disciplinas` is strictly sorted (hence without repeats) and holds exactly the disciplinas that occur |
| UseArtesanas.DisciplinasDeterminedBySet | src/hooks/useArtesanas.ts:62-65 | any strictly sorted list of exactly the occurring disciplinas is `disciplinas` |
| UseArtesanas.ArtesanasState.constructor | src/hooks/useArtesanas.ts:19-21 | the hook starts with an empty list, loading, and no error |
| UseArtesanas.ArtesanasState.StartLoad | src/hooks/useArtesanas.ts:25-26 | a load first sets loading and clears the error, keeping the list |
| UseArtesanas.ArtesanasState.FinishLoad | src/hooks/useArtesanas.ts:27-34 | on success the list becomes the data; on failure the list is kept and the error is the fixed message; loading ends either way |
| UseArtesanas.ArtesanasState.LoadArtesanas | src/hooks/useArtesanas.ts:23-35 | after a load: not loading; on success the data with no error; on failure the old list with the fixed message |
| ArtesanasApi.MapRegionFromApi | src/utils/artesanasApi.ts:5-29 | never `Insular`; north exactly when a north keyword occurs in the lower-cased name; south exactly when no north or centre keyword occurs and a south one does; centre otherwise |
| ArtesanasApi.MapRegionIgnoresCase | src/utils/artesanasApi.ts:5-6 | a name, its upper-cased and its lower-cased forms map to the same region |
| ArtesanasApi.NorthWinsOverSouth | src/utils/artesanasApi.ts:8-25 | a name containing both "norte" and "sur" is north |
| ArtesanasApi.UnknownRegionIsCentro | src/utils/artesanasApi.ts:27-28 | a name containing no keyword is centre |
| ArtesanasApi.WorkImages | src/utils/artesanasApi.ts:47-50 | the work images are the non-empty of the two fields, first field first: at most two, none empty, each non-empty field present, empty exactly when both fields are |
| ArtesanasApi.TransformArtesanaFromApi | src/utils/artesanasApi.ts:40-62 | id is the decimal string of the numeric id and reads back as it; nombre, disciplina and region come from the record; biografia falls back from historia to motivacion to ""; imagenUrl is absent exactly when the profile image is empty, else that image; imagenesTrabajo is exactly the non-empty work images, first field first, and is absent exactly when both are empty; a record without `acf` has no result |
| ArtesanasApi.UsableIndices | src/utils/artesanasApi.ts:67 | the positions of the records with `acf` and a non-empty title: all of them, in increasing order |
| ArtesanasApi.TransformArtesanasFromApi | src/utils/artesanasApi.ts:65-69 | one output per usable record, in order, each its transform; unusable records are dropped, so the output is never longer than the input |
| ArtesanasApi.StoredEntryServedUntilExpiry | src/utils/artesanasApi.ts:174-185 | an entry stored at time t is served exactly while less than 300000 ms have passed since t |
| ArtesanasApi.ClearedCacheMisses | src/utils/artesanasApi.ts:188-190 | after clearing, the next lookup misses |
| ArtesanasApi.ArtesanasCache.constructor | src/utils/artesanasApi.ts:171 | the cache starts empty |
| ArtesanasApi.ArtesanasCache.GetCachedArtesanas | src/utils/artesanasApi.ts:174-185 | a fresh entry is returned and the cache is unchanged; otherwise the fetched data is returned and stored with the time after the fetch |
| ArtesanasApi.ArtesanasCache.ClearArtesanasCache | src/utils/artesanasApi.ts:188-190 | the entry under "artesanas" is removed and nothing else changes |
| ViewTransform.ScreenToWorld | src/components/ConstellationMapImproved.tsx:276-279 | `s / scale + view` is the world point that `worldToScreen` maps to `s` |
| ViewTransform.ScreenToWorldOfWorldToScreen | src/components/ConstellationMapImproved.tsx:170-181 | mapping a world point to the screen and back returns it |
| ViewTransform.ZoomAbout | src/components/ConstellationMapImproved.tsx:273-290 | the new view has the new scale, and the world point under the focus stays under the focus |
| ViewTransform.DragPosition | src/components/ConstellationMapImproved.tsx:210-224 | while dragging, the world point grabbed at the start stays under the pointer |
| ViewTransform.DragTranslatesScreen | src/components/ConstellationMapImproved.tsx:210-224 | a drag moves every point on the screen by exactly the pointer's displacement |
| ConstellationMapImproved.RingCountForDefaultCapacity | src/components/ConstellationMapImproved.tsx:78 | for pi between 3.14 and 3.15, the square root of 365 / pi rounds up to 11 rings |
| ConstellationMapImproved.PointsPerRing | src/components/ConstellationMapImproved.tsx:79 | the points per ring are the fewest with which the rings hold every artesana |
| ConstellationMapImproved.SlotOf | src/components/ConstellationMapImproved.tsx:83-88 | with p points per ring: the ring is index / p and the position index % p (ring · p + position = index, position below the ring's size); the ring's size is min(p, count − ring · p), so at least 1 and at most p, and only the last occupied ring is short, ending at the last artesana; the ring is below the ring count |
| ConstellationMapImproved.QuotientBelow | src/components/ConstellationMapImproved.tsx:83-84 | an index below `numRings * p` has ring `index / p` below `numRings` and position `index % p` below `p` |
| ConstellationMapImproved.RingProgress | src/components/ConstellationMapImproved.tsx:91 | ring progress is ringIndex / (numRings − 1), or ringIndex / 1 with a single ring; it lies in [0, 1]: 0 for the first ring, 1 for the last |
| ConstellationMapImproved.DistributeRadially | src/components/ConstellationMapImproved.tsx:81-113 | one output per input, in order, keeping the record, at screen (0, 0), opacity 1, scale 1, and placed by its slot and ring progress |
| ConstellationMapImproved.FilteredArtesanas | src/components/ConstellationMapImproved.tsx:145-155 | exactly the placed artesanas matching every active selection, with their multiplicities, in order |
| ConstellationMapImproved.GuardedWorldToScreen | src/components/ConstellationMapImproved.tsx:170-181 | (0, 0) while the container is unmeasured, the view transform once it is measured |
| ConstellationMapImproved.ScreenArtesanas | src/components/ConstellationMapImproved.tsx:184-193 | each filtered artesana keeps every field except its screen position, which is the transform of its world position |
| ConstellationMapImproved.ZoomInScale | src/components/ConstellationMapImproved.tsx:281-284 | zooming in gives the smaller of scale + 0.2 and 2.5: never above either, and equal to one of them; it never lowers a scale at most 2.5 and stays in [0.3, 2.5] from inside it |
| ConstellationMapImproved.ZoomOutScale | src/components/ConstellationMapImproved.tsx:305-308 | zooming out gives the larger of scale − 0.2 and 0.3: never below either, and equal to one of them; it never raises a scale of at least 0.3 and stays in [0.3, 2.5] from inside it |
| ConstellationMapImproved.ZoomsStayInBand | src/components/ConstellationMapImproved.tsx:124-128 | from scale 1, any sequence of zoom and reset commands keeps the scale in [0.3, 2.5], so it is never zero |
| ConstellationMapImproved.DefaultView | src/components/ConstellationMapImproved.tsx:318-327 | the reset view has scale 1 and shows the world's centre at the container's centre |
| ConstellationMapImproved.MapViewport.constructor | src/components/ConstellationMapImproved.tsx:121-135 | the view starts at the world's centre with scale 1, not dragging, nothing selected |
| ConstellationMapImproved.MapViewport.CenterOnMount | src/components/ConstellationMapImproved.tsx:158-167 | once measured and with some artesana visible the view is the default view; otherwise it is unchanged |
| ConstellationMapImproved.MapViewport.MouseDown | src/components/ConstellationMapImproved.tsx:196-208 | a drag starts at the pointer and records the current view position |
| ConstellationMapImproved.MapViewport.MouseMove | src/components/ConstellationMapImproved.tsx:210-224 | while dragging, the view is the drag position at the current scale; otherwise nothing changes |
| ConstellationMapImproved.MapViewport.MouseUp | src/components/ConstellationMapImproved.tsx:226-228 | only `isDragging` is cleared |
| ConstellationMapImproved.MapViewport.TouchStart | src/components/ConstellationMapImproved.tsx:231-245 | a drag starts only with exactly one touch |
| ConstellationMapImproved.MapViewport.TouchMove | src/components/ConstellationMapImproved.tsx:247-262 | a one-finger move while dragging pans like the mouse; anything else changes nothing |
| ConstellationMapImproved.MapViewport.TouchEnd | src/components/ConstellationMapImproved.tsx:264-266 | only `isDragging` is cleared |
| ConstellationMapImproved.MapViewport.ZoomIn | src/components/ConstellationMapImproved.tsx:269-291 | once measured, zoom one step in about the container's centre; otherwise nothing changes; the scale stays in its band |
| ConstellationMapImproved.MapViewport.ZoomOut | src/components/ConstellationMapImproved.tsx:293-315 | once measured, zoom one step out about the container's centre; otherwise nothing changes; the scale stays in its band |
| ConstellationMapImproved.MapViewport.ResetView | src/components/ConstellationMapImproved.tsx:318-327 | once measured, the view is the default view; otherwise nothing changes |
| ConstellationMapImproved.MapViewport.ArtesanaClick | src/components/ConstellationMapImproved.tsx:330-337 | the clicked artesana is selected unless a drag is under way |
| ConstellationMapV3.InitialWorld | src/components/ConstellationMapV3.tsx:71-104 | one world artesana per artesana, at its drawn position, which is also its target, at screen (0, 0), opacity 1, scale 1 |
| ConstellationMapV3.FilteredArtesanas | src/components/ConstellationMapV3.tsx:106-116 | exactly the world artesanas matching every active selection, with their multiplicities, in order |
| ConstellationMapV3.ScreenArtesanas | src/components/ConstellationMapV3.tsx:203-212 | each filtered artesana keeps every field except its screen position, which is the transform of its target |
| ConstellationMapV3.WheelScale | src/components/ConstellationMapV3.tsx:264-265 | with t the scale times 0.9 when scrolling down and 1.1 otherwise, the result is t clamped to [0.1, 3]: t inside the band, 0.1 below it, 3 above it; from inside the band, scrolling down never zooms in and scrolling up never zooms out |
| ConstellationMapV3.NearestArtesana | src/components/ConstellationMapV3.tsx:326-339 | none exactly when no candidate is within the pick radius; otherwise the first candidate in list order that is |
| ConstellationMapV3.PickRadiusInScreenSpace | src/components/ConstellationMapV3.tsx:326-339 | a click hits an artesana exactly when its target is drawn less than 50 pixels from the click, at every scale |
| ConstellationMapV3.VisibleIndices | src/components/ConstellationMapV3.tsx:136 | the positions of the world artesanas the filter keeps: all of them, in increasing order |
| ConstellationMapV3.DisciplinasOf | src/components/ConstellationMapV3.tsx:127 | the disciplina of each visited artesana, in visiting order |
| ConstellationMapV3.GroupKeys | src/components/ConstellationMapV3.tsx:124-132 | the group keys are the disciplinas of the visible artesanas, each once |
| ConstellationMapV3.GroupMembers | src/components/ConstellationMapV3.tsx:124-132 | a group holds exactly the visible artesanas of its disciplina, in world order |
| ConstellationMapV3.GroupByDisciplina | src/components/ConstellationMapV3.tsx:124-132 | the grouping loop yields keys in first-appearance order, one group per key, each holding exactly that disciplina's visible artesanas in order |
| ConstellationMapV3.GroupStep | src/components/ConstellationMapV3.tsx:126-131 | one turn of the loop turns the grouping of the artesanas visited so far into the grouping of one more |
| ConstellationMapV3.KeysFollowGroups | src/components/ConstellationMapV3.tsx:127-131 | creating a missing group and pushing onto it keeps the keys and the groups in step: a key exists exactly for each group |
| ConstellationMapV3.UnseenDisciplinaHasNoMembers | src/components/ConstellationMapV3.tsx:128-130 | a disciplina seen for the first time starts with an empty group |
| ConstellationMapV3.CellOf | src/components/ConstellationMapV3.tsx:155-156 | the column lies in [0, 4), and row * 4 + column is the position in the group |
| ConstellationMapV3.GridTargetInjective | src/components/ConstellationMapV3.tsx:148-160 | two different (group, position) pairs get different targets |
| ConstellationMapV3.Layout | src/components/ConstellationMapV3.tsx:135-179 | one laid-out artesana per world artesana, in order |
| ConstellationMapV3.LayoutAtSpec | src/components/ConstellationMapV3.tsx:135-179 | a hidden artesana targets its own position with opacity 0 and scale 0.5; a visible one goes to the grid target of its group's index among the keys and its index in the group, with opacity 1 and scale 1; the record and positions are kept |
| ConstellationMapV3.VisibleInExactlyOneGroup | src/components/ConstellationMapV3.tsx:124-132 | a visible artesana is in the group of its own disciplina and in no other |
| ConstellationMapV3.VisibleTargetsDistinct | src/components/ConstellationMapV3.tsx:135-179 | no two visible artesanas get the same target |
| ConstellationMapV3.MapViewportV3.constructor | src/components/ConstellationMapV3.tsx:47-66 | the view starts at (0, 0) with scale 1, not dragging, no filter, nothing selected |
| ConstellationMapV3.MapViewportV3.MouseDown | src/components/ConstellationMapV3.tsx:215-227 | a drag starts at the pointer and records the current view position |
| ConstellationMapV3.MapViewportV3.MouseMove | src/components/ConstellationMapV3.tsx:229-243 | while dragging, the view is the drag position at the current scale; otherwise nothing changes |
| ConstellationMapV3.MapViewportV3.MouseUp | src/components/ConstellationMapV3.tsx:245-247 | only `isDragging` is cleared |
| ConstellationMapV3.MapViewportV3.Wheel | src/components/ConstellationMapV3.tsx:250-279 | once measured, zoom to the wheel scale about the mouse position in the container; otherwise nothing changes; the scale stays in [0.1, 3] |
| ConstellationMapV3.MapViewportV3.DoubleClick | src/components/ConstellationMapV3.tsx:282-284 | the view is reset to (0, 0) with scale 1 |
| ConstellationMapV3.MapViewportV3.TouchStart | src/components/ConstellationMapV3.tsx:287-301 | a drag starts only with exactly one touch |
| ConstellationMapV3.MapViewportV3.TouchMove | src/components/ConstellationMapV3.tsx:303-319 | a one-finger move while dragging pans like the mouse; anything else changes nothing |
| ConstellationMapV3.MapViewportV3.TouchEnd | src/components/ConstellationMapV3.tsx:321-323 | only `isDragging` is cleared |
| ConstellationMapV3.MapViewportV3.Click | src/components/ConstellationMapV3.tsx:342-359 | nothing changes while unmeasured or dragging; otherwise the click maps into the world, and the first filtered artesana it hits becomes the selection; a miss keeps the selection |
| ConstellationMapV3.MapViewportV3.ApplyFilters | src/components/ConstellationMapV3.tsx:119-189 | returns the layout under the selections in force before the call, then stores the new selections; view, drag and selection are unchanged |

## Left out

- Network I/O: fetching the records, their JSON decoding, the paginated fetch loop, fetching one
  record by id, and the fallback to the static list. The cache takes what the fetch resolves
  with as a parameter.
- ArtesanasApi.ArtesanasCache.GetCachedArtesanas: a fetch that rejects is not modelled. In the
  source it stores nothing and the rejection reaches the caller.
- `Date.now()`: the cache's two clock readings are parameters.
- `getBoundingClientRect`: the container's measured size or rectangle is an optional parameter.
- `Math.random` and the trigonometry of both layouts:
  - radius and angle jitter, `cos`/`sin`/`pow`;
  - `generateRandomPosition` for an artesana's `posicion`;
  - the prototype's own ring placement.
  They are random or transcendental, so positions are parameters (`place`, `posicion`,
  `positions`) and only the index arithmetic is modelled.
- ConstellationMapImproved.RingCountForDefaultCapacity: `Math.sqrt` and `Math.PI` are not
  modelled. The ring count 11 is justified for every pi in (3.14, 3.15), and the ring count is
  otherwise a parameter.
- IEEE-754 rounding. The transform, zoom and drag are over exact reals. The source's round trip
  and focal invariance hold only approximately in doubles.
- ConstellationMapV3.Hit: the source compares the square root of the squared distance with
  `50 / scale`. The model compares squares. The two agree for the positive scales the
  viewport keeps.
- Text.Lower: `toLowerCase` is modelled for ASCII letters and the accented capitals and Ñ of
  Spanish place names only, not full Unicode case mapping.
- StringOrder.LexLe: strings are compared character by character. For characters outside the
  Basic Multilingual Plane this differs from JavaScript's UTF-16 code-unit order.
- Text.NatToString: ids are non-negative integers. Negative or fractional ids are not modelled.
- Artesanas.Artesana: `disciplina` is kept as a string, because the API normalisation casts
  whatever the API sends without checking it. `IsDeclaredDisciplina` names the declared values.
- ArtesanasApi.TransformArtesanaFromApi: reading the fields of a record without `acf` throws in
  the source. The model returns no result instead.
- React plumbing is not modelled: `useState`/`useMemo`/`useCallback` closures, effects, the
  `isFiltering` timer, `preventDefault`, and closures that read a stale `viewState`. Handlers act
  on the current state.
- JSX, animation, SVG, styling, every page and presentational component, the detail modal, and
  the mouse-leave binding beyond calling the mouse-up handler.
- ConstellationMapV3.MapViewportV3.ApplyFilters: modelled as written. The layout is computed
  from the artesanas visible under the selections before the change. The page's callers discard
  the returned layout, so only the stored selections are observable.
- The source compares artesanas as objects, by identity, and every world artesana is a distinct
  object. `ConstellationMapImproved` works on the artesana values themselves: the filter keeps
  `PlacedArtesana` values and `ArtesanaClick` selects a value. `ConstellationMapV3` does the same in
  `FilteredArtesanas`, `NearestArtesana` and the click selection. Only its disciplina grouping and
  layout (`VisibleIndices`, `GroupByDisciplina`, `Layout`) use positions in the world list, where
  the source uses `includes`/`indexOf` on the objects. Two equal values at different positions
  are therefore one artesana for the filter and the selection, but two for the grouping.
