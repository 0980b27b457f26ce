# Fish trail and update step

A Dafny model of the per-fish kinematics in the aquarium scene's `main.js`.
It covers two parts.

- **`Fish.updateTrail`.** The trail is a bounded, newest-first history of positions. Each call pushes the current position and drops the oldest point once the history is longer than `maxTrailLength` (20). It then rebuilds two render buffers:
  - a flat `position` buffer with three numbers per point;
  - a `size` buffer with the weight `(1 - i/n) * 2` for point `i` of `n`.
- **The order of steps in `Fish.update`:**
  1. The weighted steering terms are added onto the stored acceleration: separation ×1.5, alignment ×1 and cohesion ×1.
  2. The vertical wave `sin(2·time + x) · 0.0005` is added to the acceleration's y component.
  3. The acceleration is added to the velocity, whose length is then clamped to `maxSpeed` (`clampLength(0, maxSpeed)`).
  4. The velocity moves the position.
  5. The acceleration is reset.
  6. The moved position is pushed onto the trail.
  7. Only then is the position wrapped into the bounds.

There are three modules:

- `Vectors` (`vectors.dfy`):
  - three-component real vectors;
  - THREE's `clampLength` as the update calls it;
  - `IsClampOf`, a reference definition of "clamp the length", stated as shrinking along the vector's own direction.
- `Trails` (`trail.dfy`):
  - the history (`Push`, `PushAll`);
  - the position buffer (`Flatten`, with `Unflatten` as its inverse);
  - the size buffer (`Sizes`);
  - the geometry (`Encode`, the loop `EncodeBuffers`);
  - `UpdateTrail`.
- `Fishes` (`fishes.dfy`):
  - the fish record and its constructor;
  - one frame (`Update`) and many frames (`Run`);
  - the invariant `Wellformed`, which every frame keeps.

Some operations are not defined in main.js (main.js:182 only says they are kept): `separate`, `align`, `cohesion` and `wrap`. The update also uses `Math.sin` and the vector length inside `clampLength`. The model does not define any of these. They are the fields of a `Behaviours` value passed to the step. Three assumptions are made about them:

- `wrap` is typed as a function from a position and the bounds to a new position. So the model assumes that `wrap` reads and changes only the position: not the velocity, the acceleration or the trail.
- `separate`, `align` and `cohesion` are typed as pure functions from the fish and its school to a vector. So the model assumes that they change nothing on the fish: not its position, velocity, acceleration or trail. It also assumes that each returns a fresh vector, so the in-place `multiplyScalar` calls (main.js:125-127) cannot reach the fish's own state through it. `RunTrail`, `RunHistory` and `UpdateClampsVelocity` rest on this assumption too.
- `length` is the Euclidean length (`Fishes.Valid`). Only the speed-bound results need this.

Some facts about main.js that the model follows:

- The position advances by the raw velocity (main.js:141). Nothing else scales it, and nothing damps the velocity.
- The wave is one vertical term, `sin(2·time + x) · 0.0005`, added to the acceleration's y component (main.js:134).
- Trail entries are positions only (main.js:159).
- Sizes are exactly `(1 - i/n) * 2` (main.js:175).
- The bounds are two-component, `Vector2(5, 3)` (main.js:200). Here they are a parameter of each frame.
- The limits and the trail cap are constants set in the constructor (main.js:89-92, 111).
- The lines of `update` in main.js do not clear the trail. The trail is pushed with the unwrapped position before `wrap` runs (main.js:151, 154). Under the assumptions above, nothing else clears it either.

## Model

| member | source | states |
|---|---|---|
| Vectors.ClampLengthSpec | main.js:138 | `clampLength(0, hi)` scales the vector by a non-negative factor. A zero vector comes back zero. A non-zero vector whose length is within `hi` comes back unchanged. Otherwise the squared length is `min(hi, len)²`. |
| Vectors.ClampLengthIsClamp | main.js:138 | The clamped velocity meets the reference clamp `IsClampOf`: it is the input shrunk along its own direction, keeping its length when within the limit and cut to exactly the limit otherwise. So its length is at most the limit. |
| Trails.Push | main.js:159-164 | Pushing keeps a trail that was within its cap within it. It adds one point when the trail was under the cap and keeps the length otherwise. The new position is first, followed by a prefix of the old trail in its old order. |
| Trails.PushIsWindow | main.js:159-164 | On a trail within its cap, a push leaves exactly the newest `cap` points of "position, then old trail". |
| Trails.PushAll | main.js:159-164 | Repeated pushes never take a trail that was within its cap beyond it. |
| Trails.PushAllHistory | main.js:159-164 | After k pushes, the trail length is `min(k + old length, cap)`. Entry `i` is the position pushed `i` calls ago for `i < k`, and otherwise the old entry `i - k`. |
| Trails.Flatten | main.js:167-173 | The position buffer has length `3n`, and `positions[3i+k]` is coordinate `k` of trail point `i`. |
| Trails.LayoutDeterminesFlatten | main.js:167-173 | Any buffer of length `3n` with that layout is the flattening, so the layout fixes the buffer completely. |
| Trails.UnflattenFlatten | main.js:167-173 | Reading the position buffer back three numbers at a time gives the trail exactly. |
| Trails.FlattenUnflatten | main.js:167-173 | Every buffer of whole points is the flattening of its decoding, so the encoding is a bijection. |
| Trails.SizesShape | main.js:175 | The size buffer starts at 2 for the newest point. Sizes fall strictly with age, and every size is positive; the oldest is `2/n`. |
| Trails.Encode | main.js:167-179 | The geometry holds `3n` positions in the point-major layout and `n` sizes, with `sizes[i] = (1 - i/n)·2`. |
| Trails.EncodeBuffers | main.js:167-176 | The index-writing loop over the trail fills the two arrays with exactly the geometry `Encode` describes. |
| Trails.UpdateTrail | main.js:157-180 | `updateTrail` keeps the cap. A trail within its cap stays within it. The trail grows by one point when it was under the cap and keeps its length otherwise. The pushed position comes first, followed by a prefix of the old trail. The rebuilt buffers hold `3n` positions with `positions[3i+k]` equal to coordinate `k` of point `i`, and `n` sizes with `sizes[i] = (1 - i/n)·2`. |
| Trails.LayoutIsConsistent | main.js:166-179 | Any trail whose buffers have the layout updateTrail writes (`3n` positions with `positions[3i+k]` equal to coordinate `k` of point `i`, and `n` sizes `(1 - i/n)·2`) shows its points: the buffers are exactly their flattening and their size buffer. |
| Trails.PushAllRecent | main.js:159-164 | For a trail that came from k pushes, the length is `min(k + old length, cap)`, and entry `i` is the `i`-th newest push for every `i` below both `k` and the cap. |
| Fishes.InitialComponent | main.js:84-85 | `(random - 0.5) * 0.02` for a draw in [0, 1) lies in [-0.01, 0.01). |
| Fishes.NewFish | main.js:83-111 | A new fish has a planar velocity within 0.01 per axis and no acceleration. Its limits are 0.05 and 0.002, it has an empty trail capped at 20, and it is well-formed: its speed is already within `maxSpeed`. |
| Fishes.Update | main.js:115-155 | After a frame the acceleration is zero, and the limits and trail cap are unchanged. The trail is pushed with the position moved by the new velocity, before wrapping. The new position is the wrap of that moved position. The trail geometry matches the new trail. |
| Fishes.UpdateClampsVelocity | main.js:121-138 | The new velocity is the clamp (`IsClampOf`) to `maxSpeed` of the old velocity plus the weighted steering and the wave term, so its length is at most `maxSpeed`. |
| Fishes.UpdateRecordsUnwrapped | main.js:141-154 | The newest trail point is the unwrapped moved position, and the fish's position is that point wrapped. The rest of the trail is a prefix of the old one, and the trail never gets shorter. The lines of `update` do not clear it, and `wrap` is assumed to change only the position. |
| Fishes.UpdatePreservesWellformed | main.js:115-155 | One frame keeps each of these: zero acceleration, speed within `maxSpeed`, trail within its cap, and matching geometry. |
| Fishes.RunTrail | main.js:151 | Over any number of frames, the trail is the initial trail with each frame's unwrapped position pushed in order. |
| Fishes.RunHistory | main.js:151-164 | After k frames, trail point `i` is the unwrapped position of `i` frames ago, for every `i` below both `k` and the cap. The trail length is `min(k + old length, cap)`. |
| Fishes.RunPreservesWellformed | main.js:115-155 | Any number of frames keeps a well-formed fish well-formed. |

## Left out

- **Steering and wrap bodies:** `separate`, `align`, `cohesion`, `seek` and `wrap` are not in the file (main.js:182 only says they are kept). They are uninterpreted fields of `Behaviours`. `wrap` is assumed to act on the position only. If the real `wrap` also cleared the trail or changed the velocity, the model would not show that.
- **Rotation:** the rotation step (`atan2` heading and its smoothing, main.js:144-145) is not modelled. It is transcendental and does not feed any other state the model keeps.
- **Shader uniforms and rendering setup:**
  - The shader uniform updates (main.js:117-118) are not modelled.
  - Neither are the meshes, materials, textures, scene graph, post-processing, particles, resize handler and stats. These are rendering glue.
- **Float32 buffers:** the `Float32Array` buffers are modelled as sequences of reals, without float32 rounding. All vector arithmetic is exact real arithmetic, not IEEE doubles.
- **Random draws:**
  - `Math.random` draws are parameters of `NewFish`.
  - The random initial placement of each fish in the school setup (main.js:206-212) is not modelled. A new fish starts at the origin, as the constructor leaves it.
- **Animation loop and school sweep:** the animation loop, including the sweep that updates every fish of a school in place (main.js:274-308), is scheduling and is not modelled. `Run` models the frames of one fish, with the school given per frame.
- **`maxForce`:** `maxForce` is stored, but no code in the file reads it. Presumably the steering rules use it, and they are not modelled.
- Vectors.ClampLengthSpec: the "unchanged" clause is stated only for a non-zero vector within the limit. For a zero-length vector it states that the result is the zero vector, without proving that the input was the zero vector as well.
- Fishes.UpdateClampsVelocity: the speed bound holds only under `Valid`, that is, when the supplied `length` is the Euclidean length.
