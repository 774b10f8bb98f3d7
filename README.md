# learn_vk: orbit camera, input tracker and SPIR-V word decoding in Dafny

This project models the sequential core of `learn_vk`, a Rust program that works through a Vulkan tutorial. The core has three parts:

- **Input tracker** (`InputState`, `input.dfy`). The class `Input` records the last reported state of each keyboard key in a map (`set_key_state` upserts an entry). It records the state of each mouse button in a list (`set_mouse_state` finds the button's entry and overwrites it, or appends a new one). It also keeps the cursor position. A key or button that was never recorded reads as not pressed. The list keeps each button at most once. That is the class invariant `Valid()`, and `SetButtonKeepsUnique` proves that `set_mouse_state` preserves it.
- **Orbit camera** (`OrbitCamera`, `camera.dfy`). The class `Camera` holds the scalar bookkeeping: focal point, distance, pitch, yaw, viewport, aspect ratio and the last cursor snapshot. It also holds the position that `update_view` derives from them. The quaternion math (`get_orientation` and `quat_rotate_vec3`) is a parameter: the constant `orientation` maps (pitch, yaw) to the forward, right and up directions. The clamps, the speed curves, the LAlt gating and the pan-over-rotate priority are all stated and proved exactly over `real`. The class invariant `Valid()` says the distance never goes below the floor 1.0 and the aspect ratio is width / height. Every mutating method preserves it.
- **Tools** (`Tools`, `tools.dfy`). This part has two pieces:
  - the decode loop of `shader_spirv` over an in-memory byte stream: one little-endian `u32` per complete 4-byte chunk, with a short tail dropped;
  - `vk_to_string` as the bytes before the first NUL, with its commented loop version proved to agree with it.

`vectors.dfy` holds the glm `Vec2`/`Vec3` arithmetic the other modules use, with `f32` components as `real`.

Three points where the model keeps the code's behaviour rather than a tidier one:
- mouse buttons are a list searched by first match, not a mapping;
- a zoom does not recompute the position, because `mouse_zoom` does not call `update_view`;
- `on_update` recomputes the position whenever LAlt is held, even when nothing moved.

## Model

| member | source | states |
|---|---|---|
| `InputState.FindButton` | src/input.rs:31-34 | returns None exactly when no entry has the button; otherwise returns the index of the FIRST entry for it |
| `InputState.SetButton` | src/input.rs:30-40 | an absent button is appended as `(button, state)`; otherwise the length is unchanged, and with unique buttons only the button's own entry changes, to `(button, state)`, while every other entry keeps its place and state |
| `InputState.ButtonPressed` | src/input.rs:41-50 | a button never recorded reads as not pressed; with unique buttons it reads as pressed exactly when `(button, Pressed)` is in the list |
| `InputState.KeyPressed` | src/input.rs:62-67 | a key never recorded reads as not pressed; otherwise it reads as pressed exactly when its stored state is Pressed |
| `InputState.SetButtonThenPressed` | src/input.rs:30-50 | after `set_mouse_state(b, s)`, `b` reads as pressed iff `s == Pressed`, and every other button reads as before |
| `InputState.SetButtonKeepsUnique` | src/input.rs:31-39 | `set_mouse_state` keeps each button at most once in the list |
| `InputState.SetButtonIdempotent` | src/input.rs:30-40 | applying `set_mouse_state(b, s)` twice gives the same list as applying it once |
| `InputState.SetKeyIdempotent` | src/input.rs:59-67 | applying `set_key_state(k, s)` twice gives the same map as once; afterwards `k` reads as pressed iff `s == Pressed` |
| `InputState.Input.constructor` | src/input.rs:22-28 | the key map and button list are empty, the cursor is at (0, 0), and the invariant holds |
| `InputState.Input.SetMouseState` | src/input.rs:30-40 | the search loop finds the first entry for the button; the new list is `SetButton(old list, button, state)`; the invariant is kept; keys and cursor are unchanged |
| `InputState.Input.SetMousePosition` | src/input.rs:51-54 | the cursor becomes (x, y); key and button states are unchanged |
| `InputState.Input.SetKeyState` | src/input.rs:59-61 | the key map becomes the old one with the key set to the state; buttons and cursor are unchanged |
| `InputState.FreshInputReadsNothing` | src/input.rs:22-28 | on a new tracker every key and button reads as not pressed and `get_mouse_position` gives (0, 0) |
| `InputState.PositionReadBack` | src/input.rs:51-57 | `get_mouse_position` returns the (x, y) of the last `set_mouse_position`, and later key and button events do not change it |
| `InputState.PressTwiceReleaseOnce` | src/input.rs:51-67 | two presses and then one release of a key leave it not pressed; a cursor move in between is read back unchanged |
| `InputState.ButtonPressTwiceReleaseOnce` | src/input.rs:30-50 | two presses and one release of a button leave exactly one entry for it, and that entry reads as not pressed |
| `OrbitCamera.ZoomSpeed` | src/camera.rs:198-204 | the zoom speed lies in [0, 100]; it is 0 when distance <= 0, (0.2 distance)^2 for distance in [0, 50], and 100 from 50 on |
| `OrbitCamera.ZoomSpeedMonotone` | src/camera.rs:198-204 | a larger distance never gives a lower zoom speed |
| `OrbitCamera.PanFactorRange` | src/camera.rs:186-194 | for any non-negative viewport dimension the pan factor (`PanFactor`, one half of `pan_speed`) lies between the curve's value at 2.4 and its value at 0, and is positive |
| `OrbitCamera.PanFactorSaturates` | src/camera.rs:186-194 | all dimensions >= 2400 give the same pan factor, the curve's value at 2.4 |
| `OrbitCamera.PanFactorDecreasing` | src/camera.rs:186-194 | a larger viewport dimension never gives a larger pan factor |
| `OrbitCamera.Camera.constructor` | src/camera.rs:29-54 | focal point at the origin, distance 10, pitch and yaw 0, snapshot (0, 0); fov, clip planes and viewport stored; aspect ratio = width / height; position is 10 units back along the forward direction at (0, 0) |
| `OrbitCamera.Camera.SetViewportSize` | src/camera.rs:56-61 | stores width and height, sets aspect ratio to width / height, and leaves fov, clip planes, pitch, yaw, distance, focal point, position and snapshot unchanged |
| `OrbitCamera.Camera.UpdateProjection` | src/camera.rs:131-132 | the aspect ratio becomes viewport width / viewport height |
| `OrbitCamera.Camera.PanSpeed` | src/camera.rs:186-194 | for a non-negative width (height) the x (y) factor lies between the curve's values at 2.4 and 0 and is positive; from 2400 on it is the curve's value at 2.4 |
| `OrbitCamera.Camera.CalculatePosition` | src/camera.rs:182-184 | the focal point lies exactly `distance` units ahead of the position along the forward direction |
| `OrbitCamera.Camera.UpdateView` | src/camera.rs:140-141 | the position becomes focal point - forward * distance |
| `OrbitCamera.Camera.OnUpdate` | src/camera.rs:112-128 | without LAlt nothing changes; with LAlt the snapshot becomes the cursor, distance and viewport never change, the position is recomputed, and: with the right button held only the focal point moves (the pan, even when left is also held); with only the left button held only pitch and yaw change (the rotation); with neither held nothing else moves |
| `OrbitCamera.Camera.MousePan` | src/camera.rs:153-158 | the focal point moves by `-right * dx * xSpeed * distance`, then by `up * dy * ySpeed * distance` |
| `OrbitCamera.Camera.MouseRotate` | src/camera.rs:159-166 | with `rotation_speed` (src/camera.rs lines 195-197) fixed at 0.8, pitch grows by exactly 0.8 dy; yaw changes by -0.8 dx when up.y < 0 and by +0.8 dx otherwise |
| `OrbitCamera.Camera.MouseZoom` | src/camera.rs:167-174 | distance >= 1 afterwards; if `old distance - delta * zoom_speed` is >= 1, distance becomes that value and the focal point stays; otherwise distance is exactly 1 and the focal point moves by exactly the forward direction; pitch and yaw are unchanged in both cases |
| `OrbitCamera.Camera.MouseScrolledCallback` | src/camera.rs:176-180 | has exactly the effect of `mouse_zoom(0.1 * y)`, whatever x is |
| `OrbitCamera.ZoomFromStart` | src/camera.rs:167-174 | a new camera zooms at speed 4, so `mouse_zoom(50)` lands on distance 1 with the focal point one forward direction from the origin |
| `OrbitCamera.ScrollIsZoom` | src/camera.rs:176-180 | scrolling by (x, y) and zooming by 0.1 y leave two equal cameras with the same distance and focal point |
| `Tools.FromToLeBytes` | src/utils/tools.rs:60 | `from_le_bytes` undoes `to_le_bytes` on every word |
| `Tools.ToFromLeBytes` | src/utils/tools.rs:60 | `to_le_bytes` undoes `from_le_bytes` on every 4 bytes |
| `Tools.Decode` | src/utils/tools.rs:56-66 | an n-byte stream decodes to exactly n / 4 words |
| `Tools.DecodeWordValue` | src/utils/tools.rs:57-61 | word i is `b[4i] + 2^8 b[4i+1] + 2^16 b[4i+2] + 2^24 b[4i+3]`, which is below 2^32; so the words come in stream order |
| `Tools.DecodeAppend` | src/utils/tools.rs:56-62 | if the length of `a` is a multiple of 4 then `Decode(a + b) == Decode(a) + Decode(b)` |
| `Tools.DecodeDropsTail` | src/utils/tools.rs:56-66 | 1 to 3 trailing bytes are dropped: decoding the stream equals decoding its whole-chunk prefix |
| `Tools.DecodeEncode` | src/utils/tools.rs:56-66 | decoding the little-endian bytes of any word sequence gives that sequence back |
| `Tools.EncodeDecode` | src/utils/tools.rs:56-66 | encoding the decoded words gives back the stream's whole-chunk prefix |
| `Tools.ShaderSpirv` | src/utils/tools.rs:54-68 | the read-four-bytes-and-push loop that stops at the first short read returns exactly `Decode(stream)`, with one word per complete chunk |
| `Tools.VkToString` | src/utils/tools.rs:27-35 | for an array holding a NUL, the result is a prefix of the array that contains no NUL and is followed by a NUL in the array, so it is exactly the bytes before the first NUL |
| `Tools.VkToStringOfTerminated` | src/utils/tools.rs:27-35 | a NUL-free string followed by NUL and anything else reads back as that string |
| `Tools.VkToStringByLoop` | src/utils/tools.rs:9-21 | the commented copy-until-NUL loop agrees with `vk_to_string` whenever the array holds a NUL, and returns the whole array otherwise |

## Left out

- The view and projection matrices are left out: `get_orientation`, `get_*_direction`, the translate/inverse of `update_view`, `glm::perspective`, the Y-flip of `get_projection_matrix` and `get_view_projection`. They are quaternion and matrix math done in nalgebra_glm, which is not part of this model. The direction vectors are the `orientation` parameter. Nothing is proved about their length or orthogonality.
- The radians conversion of `fov` is left out. `new` passes `fov` to `glm::perspective` unconverted, while `update_projection` converts it from degrees to radians. Only the stored `fov` is modelled.
- IEEE-754 behaviour is left out: rounding, NaN, infinities and overflow of `f32`. All scalars are `real`. So a non-zero viewport height is a precondition of `Camera.constructor` and `Camera.SetViewportSize`; the event loop never resizes to zero area.
- `distance` is a public field in the source. Other code could break the floor of 1.0 by writing it directly; the model only shows that the camera's own methods keep the floor.
- Key codes: winit's `VirtualKeyCode` enumeration is modelled as `LAlt` plus numbered `OtherKey` codes, because LAlt is the only key this core names.
- I/O in `shader_spirv` is left out: opening the file, the `BufReader`, the retry on `Interrupted` and the break on any other read error. The reader is an in-memory byte sequence.
- For `vk_to_string`, the UTF-8 check and its panic are left out, and `c_char` is modelled by its `u8` value. Its behaviour on an array without a NUL is undefined (a read past the end), so `VkToString` requires a NUL.
- `str_array_to_c_char_array` only casts pointers, so it is left out.
- The Vulkan engine, the winit event loop and the window wrapper are glue around foreign code, so they are left out.
