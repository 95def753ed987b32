# ForestFestival scene viewer: camera, input state and model loading in Dafny

This project models the small pieces of stateful logic inside the OpenGL scene
viewer. All rendering and window handling is left out.

- `vectors.dfy` (module `Vectors`): the glm value types the viewer uses.
  - `vec3` and `vec2` over reals, with the component-wise arithmetic.
  - `glm::min` and `glm::max` exactly as glm defines them.
  - `FLT_MAX`.
  - The transcendental and geometric helpers (`normalize`, `cross`, `lookAt`, `radians`, `degrees`, `sin`, `cos`, `asin`, `atan2`). These form a record of uninterpreted functions, so every proof holds for any choice of them.
- `camera.dfy` (module `Camera`): `gps::Camera` as a class whose pose fields are updated in place.
  - `Move` translates position and target together.
  - `Rotate` accumulates yaw and pitch, clamps pitch to [-89, 89], rebuilds front and right, and re-aims the target.
- `scene_control.dfy` (module `SceneControl`): the global state of `main.cpp` as the class `Scene`. It holds the 1024-entry held-key array, the clap oscillator, the rabbit toggle, the wheel angle, the teapot angle and the mouse bookkeeping.
  - `KeyboardCallback`, `MouseCallback` and `ProcessMovement` update that state in place.
  - Each is proved against a pure function of the old state: `KeyEvent`, `ClapToggle`, `ToggleRabbit`, `MouseOffsets`, `Dispatched`/`Translate`, `ClapTick` and `WheelTick`.
  - Lemmas state the properties of those functions: range invariants, when the clap turns, its 48-frame cycle, the fixed dispatch order, a move happens iff its key is held, and opposed keys cancel.
- `model3d.dfy` (module `Model3D`): `gps::Model3D`.
  - **Base path.** The base path of `LoadModel`.
  - **Face loop.** The face loop of `ReadOBJ` flattens face corners into vertices and sequential 32-bit indices, with texture coordinates defaulting to (0, 0).
  - **Materials.** The material colours, with the white default, and the texture requests of a shape's material.
  - **Texture cache.** The path-keyed cache of `LoadTexture`: a hit returns the entry and changes nothing; a miss appends exactly one entry; paths stay distinct; a second load of a path is a hit.
  - **Bounding box.** The bounding-box folds of `getMinBounds`, `getMaxBounds` and `getCenter`.
  - **Row flip.** The in-place row flip of `ReadTextureFromFile` on an `array` of bytes.
    - The flip is proved to produce `Flipped`, the image with its rows in reverse order.
    - Flipping twice gives the image back.
    - Row r lands at row h-1-r.
    - The middle row of an odd height stays put.

The parsed output of the OBJ reader (`tinyobj::LoadObj`) is an input value (`ObjData`). The GPU texture name that decoding and uploading an image yields is a function argument (`textureIds`, or `newId` for a single load).

Three behaviours one might expect are absent from the code, and the model follows the code:
- The camera's movement is not bounded and its height is not capped. The camera's header declares setters for movement bounds and a maximum height, but `Camera.cpp` defines neither, and `move` (Camera.cpp:33-53) clamps nothing.
- There is no scripted camera sequence anywhere in `main.cpp`.
- The I key shows or hides the rabbit instantly by setting its scale to 1 or 0 (main.cpp:149-155); the scale is never ramped.

## Model

| member | source | states |
|---|---|---|
| Camera.Camera.constructor | Camera.cpp:7-19 | position, target and up are stored as given; front is normalize(target - position); right, yaw and pitch are derived from front (pitch not clamped) |
| Camera.Camera.ViewMatrix | Camera.cpp:22-26 | the view matrix is lookAt(position, target, up) and reading it changes nothing |
| Camera.Camera.GetPosition | Camera.cpp:28-30 | returns the position and changes nothing |
| Camera.Camera.Move | Camera.cpp:33-53 | position and target both gain the direction's axis times speed, so target - position is unchanged; front, right, up, yaw and pitch are untouched |
| Camera.Camera.Rotate | Camera.cpp:58-75 | yaw is old yaw plus the delta exactly; pitch is the clamped sum and lies in [-89, 89]; front and right are rebuilt from the angles; target = position + front; position and up unchanged |
| Camera.ClampPitch | Camera.cpp:63-65 | the clamped pitch lies in [-89, 89] and equals the input when it already does |
| Camera.ClampPitchNearest | Camera.cpp:63-65 | the clamp returns the admissible pitch nearest to the requested one |
| Camera.MoveThenOppositeRestores | Camera.cpp:34-52 | a move followed by the opposite move at the same speed returns to the starting point, for every direction |
| SceneControl.KeyEvent | main.cpp:142-158 | for key codes in [0, 1024) a press sets the key, a release clears it; out-of-range codes and other actions leave the table unchanged; no other entry changes |
| SceneControl.PressThenRelease | main.cpp:142-158 | a press then a release of the same key leaves it released and every other key as before |
| SceneControl.Scene.KeyboardCallback | main.cpp:137-160 | the key array becomes KeyEvent of the old array; Escape requests close; P toggles the clap and I toggles the rabbit (press only); everything else unchanged; the scene invariant is kept |
| SceneControl.MouseOffsets | main.cpp:163-170 | the first cursor event yields (0, 0); later ones yield (xpos - lastX, lastY - ypos) |
| SceneControl.Scene.MouseCallback | main.cpp:162-184 | lastX/lastY become the cursor position and firstMouse becomes false; the camera rotates by the offsets times the sensitivity (pitch clamped), with front, right and target rebuilt as rotate does; position, up and all other state unchanged |
| SceneControl.ThenAscending | main.cpp:193-238 | appending a direction of higher rank to an ascending dispatch list keeps it ascending |
| SceneControl.DispatchOrder | main.cpp:193-238 | a frame dispatches its moves strictly in the order W, Up, S, Down, A, D, each at most once |
| SceneControl.ThenHas | main.cpp:193-238 | a direction is in the list after one key's check iff it was before or that key is held with that direction |
| SceneControl.DispatchedIffHeld | main.cpp:193-238 | a frame moves the camera in a direction iff the key for that direction is held |
| SceneControl.TranslateKeepsLook | main.cpp:193-238 | position and target moved through the same sequence of moves keep the vector between them |
| SceneControl.OpposedKeysCancel | main.cpp:194-215 | holding W and S alone leaves the camera position where it was |
| SceneControl.Scene.MoveIfHeld | main.cpp:194-200 | one movement key: when it is held the camera moves once in its direction; axes and angles unchanged |
| SceneControl.Scene.DispatchMovement | main.cpp:194-238 | the camera ends where the dispatched moves take its old position and target; axes and angles unchanged |
| SceneControl.ClapTick | main.cpp:257-269 | a tick keeps clapActive; an inactive tick forces offset 0 and direction 1 |
| SceneControl.ClapTickInRange | main.cpp:257-265 | while clapping, a tick keeps the offset in [0, clapMax] and the direction in {-1, +1} |
| SceneControl.ClapTickTurns | main.cpp:259-264 | the direction turns to -1 (offset snapped to clapMax) exactly when the step reaches clapMax, to +1 (offset snapped to 0) exactly when it reaches 0 without reaching clapMax, and the step is kept otherwise |
| SceneControl.ClapToggle | main.cpp:145-148 | pressing P flips clapActive; switching off resets offset 0 and direction 1; switching on keeps them |
| SceneControl.ClapRunAdd | main.cpp:256-269 | a+b frames of the oscillator are a frames followed by b frames |
| SceneControl.ClapRise | main.cpp:257-265 | moving inward, the offset grows by exactly one speed step per frame until the next step would reach clapMax |
| SceneControl.ClapFall | main.cpp:257-265 | moving outward, the offset shrinks by exactly one speed step per frame while it stays above 0 |
| SceneControl.ClapCycle | main.cpp:256-269 | with speed 0.015 and max 0.35, clapping from rest turns at 0.35 after 24 frames and is back at 0 turned inward after 48 |
| SceneControl.Scene.AdvanceClap | main.cpp:256-269 | the clap state becomes ClapTick of the old state; the invariant is kept; nothing else changes |
| SceneControl.ToggleRabbit | main.cpp:149-155 | a visible rabbit (scale > 0) is hidden (0), anything else is shown (1) |
| SceneControl.ToggleRabbitTwice | main.cpp:149-155 | two presses of I from 0 or 1 restore the scale |
| SceneControl.WheelTick | main.cpp:273-274 | the angle advances by the speed and wraps once by 360 exactly when it reaches 360; from [0, 360) with speed in [0, 360) it stays in [0, 360) |
| SceneControl.Scene.AdvanceWheel | main.cpp:272-274 | the wheel angle becomes WheelTick of the old angle; nothing else changes |
| SceneControl.Scene.ProcessMovement | main.cpp:193-275 | the camera is moved by the held keys in dispatch order and keeps target - position; the teapot angle drops by 1 for Q and rises by 1 for E; the clap and the wheel advance one tick; the invariant is kept |
| SceneControl.Scene.constructor | main.cpp:51-95 | the initial globals: camera at (0, 3, 20) aimed at the origin with up (0, 1, 0), front normalize((0, -3, -20)) and right, yaw and pitch derived from it, no key held, clap at rest, rabbit shown, first mouse pending, wheel and teapot at angle 0 |
| Model3D.LastIndexOf | Model3D.cpp:7 | find_last_of: the index of the last occurrence of the character, or -1 when absent |
| Model3D.BasePath | Model3D.cpp:7 | the base path ends in '/'; with no '/' it is the name plus "/"; otherwise it is the prefix of the name up to and including its last '/' |
| Model3D.Model3D.LoadModel | Model3D.cpp:5-9 | appends one mesh per shape of the file, read with BasePath(fileName); the cache only grows and keeps distinct paths |
| Model3D.Model3D.LoadModelWithBasePath | Model3D.cpp:29-32 | the same with the given base path |
| Model3D.Model3D.constructor | main.cpp:80-91 | a model starts with no meshes and an empty texture cache |
| Model3D.Model3D.ReadOBJ | Model3D.cpp:42-170 | the old meshes are kept and one mesh per shape is appended in order, each built from its shape (vertices, indices, material, texture paths); every new texture is in the cache; the cache only grows and keeps distinct paths |
| Model3D.Model3D.BuildMesh | Model3D.cpp:64-168 | one shape's mesh: the flattened faces, the material colours and the textures its material requests |
| Model3D.FaceVertexCountPrefix | Model3D.cpp:71-115 | the corners of the first faces never outnumber those of all faces |
| Model3D.FlattenFaces | Model3D.cpp:71-115 | one vertex per face corner in order, built from that corner's indices; as many vertices and indices as the sum of the face sizes; index k is k truncated to 32 bits |
| Model3D.ReadCorner | Model3D.cpp:83-107 | the vertex read for one corner is MakeVertex of its indices |
| Model3D.MakeVertex | Model3D.cpp:85-98 | a corner without a texture coordinate (-1) gets (0, 0) |
| Model3D.SequentialIndices | Model3D.cpp:111 | with fewer than 2^32 corners the indices are exactly 0, 1, 2, ... |
| Model3D.ShapeMaterial | Model3D.cpp:119-134 | white unless the shape names a material (and the file defines any), then that material's colours |
| Model3D.PathsMatchAppend | Model3D.cpp:137-164 | textures that answer two request lists answer their concatenation, path by path |
| Model3D.Model3D.LoadMaterialTextures | Model3D.cpp:127-166 | the textures answer the ambient, diffuse and specular requests in that order, each only when named; all are in the cache; the cache only grows and keeps distinct paths |
| Model3D.Model3D.LoadNamedTexture | Model3D.cpp:137-144 | an empty name yields no texture and leaves the cache unchanged; otherwise the one texture and the new cache are CacheLoad of the old cache for basePath + name |
| Model3D.FindTexture | Model3D.cpp:175-182 | the index of the first cache entry with the path, or -1 when none has it |
| Model3D.CacheLoadSpec | Model3D.cpp:175-193 | the returned texture has the requested path and is in the cache; a hit leaves the cache unchanged; a miss appends exactly one entry with that path and kind; distinct paths stay distinct |
| Model3D.CacheLoadIdempotent | Model3D.cpp:175-193 | loading the same path again returns the same texture and leaves the cache unchanged |
| Model3D.Model3D.LoadTexture | Model3D.cpp:173-194 | the new cache and the returned texture are CacheLoad of the old cache; the texture has the path and is cached; distinct paths stay distinct |
| Model3D.Positions | Model3D.cpp:18-24 | the positions of a vertex list, one for one and in order |
| Model3D.AllPositionsIff | Model3D.cpp:18-24 | a point is among the scanned positions iff it is the position of some vertex of some mesh |
| Model3D.FoldMinBelow | Model3D.cpp:277-284 | the running minimum is below its seed and below every scanned position, component-wise |
| Model3D.FoldMaxAbove | Model3D.cpp:289-296 | the running maximum is above its seed and above every scanned position, component-wise |
| Model3D.FoldMinAttained | Model3D.cpp:277-284 | each component of the running minimum is the seed's or that of a scanned position |
| Model3D.FoldMaxAttained | Model3D.cpp:289-296 | each component of the running maximum is the seed's or that of a scanned position |
| Model3D.BoundsEnclose | Model3D.cpp:275-297 | every vertex of every mesh lies between getMinBounds and getMaxBounds, component-wise |
| Model3D.BoundsAttained | Model3D.cpp:275-297 | with at least one vertex, all finite, each component of both bounds is that component of some vertex |
| Model3D.BoundsWithoutVertices | Model3D.cpp:11-27 | with no meshes, the bounds and the centre are the zero vector; with meshes but no vertex, the bounds are (FLT_MAX, -FLT_MAX) and the centre is zero |
| Model3D.CenterInBox | Model3D.cpp:11-27 | with at least one vertex, the centre is the midpoint of the two bounds and lies between them |
| Model3D.Model3D.GetMinBounds | Model3D.cpp:275-285 | the result is MinBounds of the meshes and lies below every vertex position |
| Model3D.Model3D.GetMaxBounds | Model3D.cpp:287-297 | the result is MaxBounds of the meshes and lies above every vertex position |
| Model3D.Model3D.GetCenter | Model3D.cpp:11-27 | the result is Center of the meshes and, with a vertex, lies inside the bounding box |
| Model3D.Flipped | Model3D.cpp:210-229 | the vertical mirror of an image keeps its size |
| Model3D.FlippedAppend | Model3D.cpp:216-229 | flipping whole rows a followed by b puts b's flipped rows before a's |
| Model3D.FlipTwice | Model3D.cpp:210-229 | flipping an image of whole rows twice gives it back |
| Model3D.FlippedRow | Model3D.cpp:216-229 | row r of the flipped image is row h - 1 - r of the original |
| Model3D.FlippedRowAt | Model3D.cpp:216-229 | the row at byte offset lo lands at byte offset size - (lo + w) once flipped |
| Model3D.FlipKeepsMiddleRow | Model3D.cpp:214-229 | with an odd number of rows, the middle row is the same before and after the flip |
| Model3D.SwapBlocksOf | Model3D.cpp:221-228 | swapping two blocks keeps the image size |
| Model3D.SwapBlocksConcat | Model3D.cpp:221-228 | swapping the blocks at top and bottom exchanges exactly those two blocks and keeps the rest in place |
| Model3D.SwapBlocks | Model3D.cpp:221-228 | an array that holds each block's bytes at the other block's place and every other byte unchanged is the swapped image |
| Model3D.SwapRows | Model3D.cpp:221-228 | the column loop turns the buffer into SwapBlocksOf of the old buffer |
| Model3D.FlipStep | Model3D.cpp:216-229 | swapping the next pair of rows advances the loop state by one row |
| Model3D.FlipIteration | Model3D.cpp:216-229 | iteration r - 1 of the row loop turns the state after r - 1 iterations into the state after r |
| Model3D.SwapsDonePhaseStep | Model3D.cpp:216-229 | the loop state after r swaps is the finished outer rows around the untouched middle, if that holds after r - 1 |
| Model3D.SwapsDonePhase | Model3D.cpp:216-229 | after r iterations the outer r rows at each end are flipped and the middle is untouched |
| Model3D.PhaseStart | Model3D.cpp:216 | before the first iteration the image is untouched |
| Model3D.FlipDone | Model3D.cpp:214-229 | when at most one middle row is left, the loop state is the flipped image |
| Model3D.SwapsDoneFlips | Model3D.cpp:214-229 | the y / 2 iterations of the row loop flip the whole image |
| Model3D.SwapRowPair | Model3D.cpp:218-228 | one iteration of the row loop swaps row `row` with row y - 1 - row |
| Model3D.FlipRows | Model3D.cpp:210-229 | the row loop turns the x-by-y RGBA buffer into its vertical mirror, Flipped of the old buffer |

## Left out

- Floating point: `float` and `double` are modelled as exact reals, so rounding (of the clap offset, the wheel angle, the mouse offsets) is not modelled.
- The transcendental and geometric helpers of glm and cmath are uninterpreted, so nothing is proved about unit length of front or right.
- All OpenGL, GLFW and shader calls: uniform uploads, matrix composition for rendering, window creation, `glfwSetWindowShouldClose` (modelled as the `shouldClose` flag), texture upload and the destructor's buffer deletion. `Mesh.cpp` and the skybox are not part of this model.
- `tinyobj::LoadObj` and `stbi_load` are foreign code: their results are inputs (`ObjData`, the image array with its x and y, the texture id). The `exit(1)` when the OBJ reader fails is not modelled.
- `ReadTextureFromFile` returns 0 when decoding fails. That id, like any other, reaches the model only as the `newId` or `textureIds` argument.
- The movement-bounds and maximum-height setters are declared in the camera's header and called from `main.cpp`, but have no definition, and `move` clamps nothing. They are not modelled.
- A scripted camera sequence and a ramped rabbit reveal do not exist in the code and are not modelled.
- The tuning globals (camera speed, clap speed and maximum, mouse sensitivity, wheel speed) are never reassigned by the program and are constants here.
- The `GLuint` index width is modelled (indices are taken modulo 2^32). Other integer widths (`int` key codes, `size_t` loop counters, `int` image sizes) are unbounded.
- Model3D.Model3D.ReadOBJ: requires every face corner's vertex and normal index to be in range, and each texture coordinate index to be -1 or in range. The same holds for the material id of each shape. The source reads these without checks, so out-of-range input is undefined behaviour there.
- Model3D.FlipRows: requires the buffer to hold exactly y rows of x * 4 bytes, as the decoder guarantees; the size is written `RowStart(y, x * 4)`, which equals `y * (x * 4)`.
- Model3D.hpp and Mesh.hpp are not part of this model, so the layout of `gps::Vertex`, `gps::Texture` and `gps::Material` is taken from how `Model3D.cpp` uses them.
