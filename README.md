# Align To Terrain — a Dafny model

This project models the editor command "Align Selected To Terrain" from
`Assets/Editor/AlignToTerrain.cs`. For each selected object the command casts a
vertical probe through the object's position. It looks at every hit the probe
reports, ignores hits that are not terrain colliders, and ignores terrain hits
whose height differs from the object's by more than `MaxVerticalDistance`
(100). Of the hits that remain it keeps the one with the smallest probe
distance; a strict `<` means the first of equally close hits wins. The object
then moves to that hit's height, keeping its x and z. The batch command counts
the objects that moved and reports that count, "no terrain nearby", or "no
selection".

Everything is in one module, `AlignToTerrain` (`align_to_terrain.dfy`):

- `Vec3` and `Hit` are values. A `Hit` has a point, an `isTerrain` flag and a
  distance. `Transform` is a class whose `position` field the command assigns
  in place.
- The physics query is an input: `AlignTransformToTerrain` receives the hits
  of the probe cast from the object's position, and the batch receives one
  hit list per selected object (`probes[i]` for `targets[i]`). The selection
  is an explicit `seq<Transform>`.
- `SelectAmong` is the specification of the selection pass. It is a fold over
  the first `n` hits that returns the index of the kept hit; `Select` applies
  it to the whole list. Its contract ties it to the declarative description
  `IsClosestAmong`: the hit qualifies, no qualifying hit is closer, and every
  earlier qualifying hit is strictly farther. `SelectCharacterized` shows that
  `Select` returns exactly the index `IsSelected` describes.
- `AlignTransformToTerrain` and `AlignSelectedToTerrain` are the two loops of
  the source, written as methods with loop invariants. Their postconditions are
  stated through `Select`, `SnapPosition`, `Aligned` and `CountMoved`.
- The `float.PositiveInfinity` starting value of `closestDistance` is modelled
  by the `foundTerrain` flag: while no hit has been kept, any qualifying hit is
  kept. For finite distances this is what the source's comparison does.

## Model

| member | source | states |
|---|---|---|
| AlignToTerrain.SelectAmong | Assets/Editor/AlignToTerrain.cs:63-85 | After the first n hits, no hit is kept exactly when none of them is terrain within the inclusive vertical bound. A kept hit qualifies, has the minimum distance among the qualifying hits seen, and every earlier qualifying hit is strictly farther, so ties go to the first hit |
| AlignToTerrain.SelectCharacterized | Assets/Editor/AlignToTerrain.cs:67-85 | The pass keeps index i if and only if i is the first qualifying hit of minimum distance, in both directions |
| AlignToTerrain.SnapPosition | Assets/Editor/AlignToTerrain.cs:78-88 | A new position exists exactly when some hit qualifies, and it keeps the original x and z |
| AlignToTerrain.SnapsToSelectedHeight | Assets/Editor/AlignToTerrain.cs:82 | When hit i is the one IsSelected describes, the new position is the original x and z with hit i's y |
| AlignToTerrain.NonQualifyingIgnored | Assets/Editor/AlignToTerrain.cs:69-76 | Inserting a non-terrain hit, or a terrain hit beyond the vertical bound, anywhere in the hit list never changes the outcome, however small its distance |
| AlignToTerrain.BoundIsInclusive | Assets/Editor/AlignToTerrain.cs:73-76 | A lone terrain hit is used exactly when its vertical offset lies in [-100, 100], so an offset equal to the bound is accepted |
| AlignToTerrain.TiesGoToEarliest | Assets/Editor/AlignToTerrain.cs:79 | When two qualifying hits have the same distance, the later one is never the one kept |
| AlignToTerrain.CloserNonTerrainHitPassedOver | Assets/Editor/AlignToTerrain.cs:67-84 | Object at (0, 50, 0), non-terrain hit at y 49 with distance 1, terrain hit at y 10 with distance 40: the object moves to (0, 10, 0) |
| AlignToTerrain.ProbeTerrainHitsQualify | Assets/Editor/AlignToTerrain.cs:48-76 | A terrain hit of the tool's own ray (start 100 above the object, length 200, distance = start height minus hit height) always passes the vertical filter |
| AlignToTerrain.KeepsHighestTerrainHit | Assets/Editor/AlignToTerrain.cs:48-84 | For hits of the tool's own ray, the kept hit is terrain and no terrain hit lies higher than it |
| AlignToTerrain.HigherTerrainWinsOverNearerTerrain | Assets/Editor/AlignToTerrain.cs:78-84 | Object at height 0, terrain at 90 (distance 10) and at -5 (distance 105): the object moves to 90, not to the nearer -5 |
| AlignToTerrain.AlignTransformToTerrain | Assets/Editor/AlignToTerrain.cs:43-96 | Returns true exactly when the probe's hits include a qualifying one. The new position is the snapped one in that case and the unchanged original otherwise; an empty hit list returns false |
| AlignToTerrain.CountMoved | Assets/Editor/AlignToTerrain.cs:20-26 | The number of objects among the first n that move is at most n |
| AlignToTerrain.NothingMovedIff | Assets/Editor/AlignToTerrain.cs:28-36 | The count is zero exactly when no object's probe finds qualifying terrain, which is when the batch reports that nothing moved |
| AlignToTerrain.AlignSelectedToTerrain | Assets/Editor/AlignToTerrain.cs:10-37 | Every selected object ends at its aligned position. An empty selection reports NoSelection and changes nothing. Otherwise, with n the number of objects whose alignment returned true, the report is Moved(n) when n > 0 and NoTerrainNearby when n = 0 |

## Left out

- The ray construction and `Physics.RaycastAll` (origin 100 above the object, length 200, all layers, triggers ignored) are a physics-engine call. The model takes its result as an input hit list.
- AlignSelectedToTerrain: takes each object's hit list up front. In the editor the ray for a later object is cast after earlier objects have moved, so the collider of an object moved earlier could appear among a later object's hits. Such a hit is not terrain unless that object is itself a terrain, and NonQualifyingIgnored shows that non-terrain hits never change the outcome.
- Hit distance and height are independent inputs in the selection rule. For the tool's own ray they are tied (`distance == original y + 100 - hit y`, see `FromDownwardProbe`), which has three consequences. The hit kept is the highest qualifying terrain hit, not "the closest terrain point to the original position" that the comment at `Assets/Editor/AlignToTerrain.cs:78` describes (`KeepsHighestTerrainHit`, `HigherTerrainWinsOverNearerTerrain`). The vertical filter at lines 74-76 never rejects such a hit, except through float rounding at the ends of the ray (`ProbeTerrainHitsQualify`). The model follows the code, not the comment.
- `Undo.RecordObject`, `EditorUtility.SetDirty` and `SceneView.RepaintAll` are editor side effects with no logic of their own.
- `Debug.Log` and `Debug.LogWarning` messages are I/O. The model returns the `Report` that decides which message is printed. The `MenuItem` shortcut is UI glue.
- `Selection.transforms` is ambient editor state. The model passes the selection as a sequence of distinct objects, as the editor's selection holds each object once. A null array is treated like an empty one.
- IEEE float behaviour is not modelled: NaN distances, rounding in the subtraction and `Mathf.Abs`, and infinite distances compared against the `float.PositiveInfinity` start value. Coordinates and distances are reals.
- Re-aligning an already aligned object ("idempotence") is not stated. It depends on how the physics engine recomputes hits and distances from a new probe origin, and the model does not include that geometry.
- `Assets/NewPunch/ShirtlessZombieFree/Scripts/RandomStartTrigger.cs` is not part of this model. It is a coroutine that waits a random time and triggers an animation: scheduling, randomness and engine calls with no logic to state.
