# Relight: a verified model of the light store, the pointer handlers and the compositor

The relighting tool has three parts, and this project models their logic in Dafny.

- **The light store of the page.** This is an ordered list of synthetic point lights plus the id of the selected light. The handlers `handleAddLight`, `updateLight`, `handleDrop` and `onDeleteLight` each map one state to the next. They are modelled as functions over `seq<Light>` and `Option<int>`: see `lights.dfy`, module `Lights`.
- **The pointer handlers of the light canvas.**
  - `getRelativeCoords` is a pure function.
  - The drag state (`draggingId`) is kept together with the page state that the handlers reach through `setSelectedId` and `onDrop`. The class `PointerState` owns both, and its methods update them in place: see `pointer.dfy`, module `Pointer`.
- **`hexToRGB` and the radial compositor in `img.onload`.**
  - `hexToRGB` parses a light's colour string with `parseInt(_, 16)`. It then cuts the result into three bytes with 32-bit shifts and masks: see `hex_color.dfy`, module `HexColor`.
  - The compositor copies the 512x512 RGBA base buffer. For each light it runs the `dy`/`dx` loops over a square of side `2r + 1`. It keeps the offsets that pass the disc test and the canvas bounds check, then rewrites the R, G and B bytes of the target pixel in place.
  - The compositor is modelled as methods over an `array<int>`: see `compositor.dfy`, module `Compositor`. Each loop level is its own method, and each is proved against a fold (`Step`, `Cols`, `Rows`, `LightPass`, `Relight`) that visits the offsets in the same order as the loops.
  - The lemmas about the fold characterise every byte of the result:
    - which pixel each offset writes;
    - locality;
    - the alpha byte is never written;
    - the result stays within byte range;
    - lights are applied in list order, each over the previous result.

`wrappers.dfy` holds the `Option` type.

The off-screen renderer (`RelightImageRender`) contains a `hexToRGB` and a compositor loop that are textually identical to those of the light canvas. Both are modelled by the same members, so for equal inputs they give the same buffer by construction. The rows for that file below cite the members that state its properties.

Three choices in the compositor follow the code closely:

- The stores go into a `Uint8ClampedArray`, which clamps at both ends and rounds to the nearest integer, with ties going to the even one. `ClampByte` models that conversion.
- The code has no guard against a radius of 0. The compositor requires a radius of at least 1, the minimum of the radius slider (`src/components/LightControlPanel/index.tsx:76-78`).
- The code's own disc test, `Math.sqrt(dx * dx + dy * dy) > r`, is kept. It is shown equal to the integer test `dx² + dy² > r²` wherever the square root is exact (`ReachedIffInDisc`).

## Model

| member | source | states |
|---|---|---|
| Lights.AddLight | src/app/page.tsx:24-37 | With no image loaded, the state is returned unchanged. Otherwise exactly one light is appended: the earlier lights are kept in order, the new light has id `id`, position (256, 256), brightness 1.7, distance 800, radius 100 and colour `#ffffff`, and the selection becomes `id`. |
| Lights.UpdateLight | src/app/page.tsx:39-43 | Length and order are kept. Each light is `Merge(light, patch)` when its id matches and is unchanged otherwise; a merge replaces exactly the fields the patch gives. |
| Lights.UpdateAbsent | src/app/page.tsx:41 | An update naming an id that no light carries returns the list unchanged. |
| Lights.UpdateIdempotent | src/app/page.tsx:39-43 | Applying the same update twice equals applying it once. This holds even when the patch changes the id. |
| Lights.BrightnessRestore | src/app/page.tsx:39-43 | Setting a brightness and then setting the old brightness back restores the list exactly, and with it the compositor's input. |
| Lights.Drop | src/app/page.tsx:45-49 | Length is kept. A matching light gets position (x, y). Id, brightness, distance, radius and colour are kept for every light, and the position of every other light is kept. |
| Lights.DropIsMove | src/app/page.tsx:45-49 | handleDrop equals updateLight with a patch that gives only the position. |
| Lights.RemoveId | src/app/page.tsx:53 | A light is in the result exactly when it is in the input and its id differs from `id`. The result is no longer than the input. |
| Lights.RemoveConcat | src/app/page.tsx:53 | The filter distributes over concatenation, so the surviving lights keep their relative order. |
| Lights.RemoveAbsent | src/app/page.tsx:53 | Filtering out an id that no light carries returns the list unchanged. |
| Lights.DeleteSelected | src/app/page.tsx:51-56 | With no selection, the state is returned unchanged. With a selection, every light carrying the selected id is filtered out and the selection is cleared. |
| Lights.AddThenDelete | src/app/page.tsx:24-56 | Adding a light under an id not yet in use and then deleting the selection gives back the original list with no selection. |
| Lights.Select | src/components/LightCanva/index.tsx:51 | `setSelectedId`: the lights are kept and the selection becomes `id`. |
| HexColor.DigitRun | src/components/LightCanva/index.tsx:21 | The length of the longest prefix made of hex digits: that prefix is all digits, and the character after it is not a digit. |
| HexColor.ParseIntHex | src/components/LightCanva/index.tsx:21 | `parseInt(_, 16)` returns NaN (`None`) exactly when no hex digit follows the optional sign and `0x` prefix. |
| HexColor.ParseDigits | src/components/LightCanva/index.tsx:21 | A non-empty string of hex digits parses to the value of all its digits. |
| HexColor.Unpack | src/components/LightCanva/index.tsx:22 | The three masked bytes of the 32-bit pattern are each in [0, 255]. |
| HexColor.ByteSplit | src/components/LightCanva/index.tsx:22 | The shifts and masks give back the three bytes of a 24-bit number. |
| HexColor.SixDigits | src/components/LightCanva/index.tsx:21 | The value of six hex digits is made of the values of its three digit pairs, high pair first. |
| HexColor.HexToRGB | src/components/LightCanva/index.tsx:20-23 | Every channel is a byte, whatever the string. When parseInt yields NaN, the colour is (0, 0, 0). |
| HexColor.HexToRGBDigits | src/components/RelightImageRender/index.tsx:6-9 | For `#rrggbb`, the result is the values of the three two-digit groups, in order. |
| HexColor.HexRoundTrip | src/components/LightCanva/index.tsx:20-23 | Encoding three bytes as `#rrggbb` and parsing the string back gives the same bytes. |
| HexColor.HexCanonical | src/components/LightCanva/index.tsx:20-23 | A lower-case `#rrggbb` string is the encoding of the colour parsed from it. |
| Pointer.RelativeCoords | src/components/LightCanva/index.tsx:40-46 | With no bounding rectangle, the result is (0, 0). Otherwise both coordinates are at least 0 and at most the width and height. A pointer inside the canvas gives its offset from the top-left corner. A pointer left of or above the canvas gives 0 on that axis; a pointer right of or below it gives the width or height on that axis. |
| Pointer.PointerState.constructor | src/components/LightCanva/index.tsx:35 | No drag is in progress. |
| Pointer.PointerState.MouseDown | src/components/LightCanva/index.tsx:48-52 | `draggingId` and `selectedId` both become `id`, and the lights are unchanged. Afterwards the dragged light is the selected one (`Valid`). |
| Pointer.PointerState.MouseUp | src/components/LightCanva/index.tsx:54-56 | The drag ends and the page state is unchanged. |
| Pointer.PointerState.MouseMove | src/components/LightCanva/index.tsx:58-62 | When nothing is dragged, nothing changes. Otherwise the dragged light is dropped at the clamped pointer coordinates. The drag and the selection are kept. The method runs in any state; if the dragged light was the selected one beforehand, it still is. |
| Pointer.PointerState.ClickToMoveSelected | src/components/LightCanva/index.tsx:64-68 | The selected light is dropped at the clamped pointer coordinates, but only when markers are shown and a light is selected. Otherwise nothing changes. The drag and the selection are kept. The method runs in any state; if the dragged light was the selected one beforehand, it still is. |
| Compositor.ClampByte | src/components/LightCanva/index.tsx:94 | The `Uint8ClampedArray` store: the result is a byte, 0 at or below 0, 255 at or above 255, and within 0.5 of the value in between. |
| Compositor.Shade | src/components/LightCanva/index.tsx:116-118 | A written channel is a byte. A light colour channel of 0 sets the pixel channel to 0. |
| Compositor.Target | src/components/LightCanva/index.tsx:107-112 | A target that passes the bounds check has its four bytes `idx .. idx + 3` inside the 512·512·4 buffer. |
| Compositor.TargetPixel | src/components/RelightImageRender/index.tsx:68-73 | The target is the pixel at (floor(lx) + dx, floor(ly) + dy). There is one exactly when that pixel lies on the canvas. |
| Compositor.Step | src/components/LightCanva/index.tsx:104-118 | The body of the `dx` loop keeps the buffer length; `LightPassAt` says what it writes. |
| Compositor.Cols | src/components/LightCanva/index.tsx:103 | The `dx` loop keeps the buffer length. |
| Compositor.Rows | src/components/LightCanva/index.tsx:102 | The `dy` loop keeps the buffer length. |
| Compositor.LightPass | src/components/LightCanva/index.tsx:97-120 | One light's pass keeps the buffer length. |
| Compositor.Relight | src/components/LightCanva/index.tsx:96-121 | All lights in list order keep the buffer length. |
| Compositor.ShadeOffset | src/components/LightCanva/index.tsx:104-118 | One offset, in place: the new buffer is `Step` of the old one. The offset is skipped when `dist > r` or the pixel is off the canvas; otherwise bytes `idx`, `idx + 1` and `idx + 2` are rewritten. |
| Compositor.ShadeRow | src/components/LightCanva/index.tsx:103-119 | The `dx` loop, in place: the new buffer is `Cols` of the old one over `-r <= dx <= r`. |
| Compositor.ShadeRows | src/components/LightCanva/index.tsx:102-120 | The `dy` loop, in place: the new buffer is `Rows` of the old one over `-r <= dy <= r`. |
| Compositor.ApplyLight | src/components/LightCanva/index.tsx:97-120 | One light, in place: its colour is parsed once, and the new buffer is `LightPass` of the old one. |
| Compositor.Composite | src/components/LightCanva/index.tsx:93-121 | The result is a fresh copy of the base buffer, relit light by light in list order: it equals `Relight(base, lights)`. The base buffer is not modified. |
| Compositor.LightPassAt | src/components/LightCanva/index.tsx:102-118 | Byte by byte, after one light: the R, G and B bytes of a reached pixel are shaded once, with the factor at that pixel and the matching colour channel. Every other byte keeps its value, and so does every alpha byte. |
| Compositor.DiscTestExact | src/components/LightCanva/index.tsx:104-105 | With an exact root, `!(dist > r)` holds exactly when `dx² + dy² <= r²`. |
| Compositor.ReachedIffInDisc | src/components/LightCanva/index.tsx:102-105 | With exact roots, a light reaches a pixel if and only if the pixel's offset satisfies `dx² + dy² <= r²`. |
| Compositor.LightPassLocal | src/components/LightCanva/index.tsx:102-105 | Locality: a byte of a pixel outside a light's disc keeps its value. |
| Compositor.FactorBounds | src/components/LightCanva/index.tsx:113-114 | For `0 <= dist <= r`, the weight lies in [0, 1] and the factor lies between 1 and `b`. The factor is `b` at the centre and 1 at the rim. |
| Compositor.ShadeUnit | src/components/LightCanva/index.tsx:116 | A white light at factor 1 leaves a byte as it is. |
| Compositor.RedLightTints | src/components/LightCanva/index.tsx:100-118 | A `#ff0000` light never raises a green or blue byte, and it zeroes both at every pixel it reaches. |
| Compositor.CentreShade | src/components/LightCanva/index.tsx:107-118 | For a light whose position lies on the canvas, at the pixel under it (the root of 0 being 0): each of the R, G and B bytes is shaded with the full brightness `b` and the matching colour channel. |
| Compositor.WhiteAndGrey | src/components/LightCanva/index.tsx:20-23 | `#ffffff` parses to (255, 255, 255) and `#808080` parses to (128, 128, 128). |
| Compositor.RelightEmpty | src/components/RelightImageRender/index.tsx:55-57 | With no lights, the result is the base buffer. |
| Compositor.RelightSnoc | src/components/RelightImageRender/index.tsx:57-81 | A light at the end of the list is applied over the result of the lights before it, not over the base. |
| Compositor.RelightAlpha | src/components/RelightImageRender/index.tsx:77-79 | The alpha byte of every pixel keeps its base value, whatever the lights. |
| Compositor.RelightLocal | src/components/RelightImageRender/index.tsx:63-73 | A pixel that no light reaches keeps all four base bytes. |
| Compositor.RelightOutside | src/components/RelightImageRender/index.tsx:63-66 | With exact roots, a pixel outside the disc of every light keeps all four base bytes. |
| Compositor.RelightBytes | src/components/RelightImageRender/index.tsx:74-79 | Every byte of the result is in [0, 255] whenever the base bytes are. |
| Compositor.TwoPasses | src/components/RelightImageRender/index.tsx:57-81 | With two lights, the second is applied over the result of the first. |
| Compositor.TwoCentredLights | src/components/RelightImageRender/index.tsx:57-81 | Take two lights over the same on-canvas pixel. Each of that pixel's R, G and B bytes is shaded by the first light at full brightness, then, from that result, by the second. |
| Compositor.OrderMatters | src/components/RelightImageRender/index.tsx:57-81 | Lights do not commute under the clamp. At a red byte of 200, white at brightness 2 then grey at brightness 1 gives 128; the reverse order gives 200. |

## Left out

- Canvas and DOM calls (`getContext`, `drawImage`, `getImageData`, `putImageData`, `toDataURL`, `new Image`) are foreign calls. The base pixels are an input buffer of 512·512·4 integers.
- The letterbox scaling (`src/components/LightCanva/index.tsx:79-86`) only feeds `drawImage`. It is floating point and is not part of this model.
- `Math.sqrt` is a foreign call. It is the parameter `sqrt`, applied to the same argument as in the code; results that depend on it assume an exact root only at the points they name.
- IEEE-754 doubles are not modelled. Channel arithmetic is exact over reals, in the code's order of operations, followed by the `Uint8ClampedArray` store conversion. The rounding of each double operation is not modelled.
- HexColor.ParseIntHex: does not model `parseInt`'s skipping of leading whitespace, or its loss of precision beyond 2^53. Colour strings come from a colour input as `#rrggbb`.
- Light ids come from `Date.now()`, a clock read. They are a parameter of `AddLight`, and their uniqueness is not claimed: `AddThenDelete` requires the id to be unused.
- The radius is a whole number of at least 1, as the radius slider (step 1, minimum 1) produces it. The compositor requires it; there is no guard in the code and none is added.
- The `distance` field is carried along but never read by a computation.
- Pointer.PointerState.Valid: a dragged light is the selected one only while the page leaves the selection alone. `onMouseUp` is bound to the canvas container only, so a drag released outside it keeps `draggingId` set. Adding or deleting a light then changes the selection. No handler requires the predicate, and the predicate is not claimed as an invariant of the program.
- React state batching, re-rendering and event propagation are not modelled. A handler's state update is applied immediately.
- The pointer handlers are bound to JSX, the selection overlays (`ZONE_DEFINITIONS`) are drawn as JSX, and `LightControlPanel` and `Compare` are UI components. Only the handler bodies are modelled.
- The off-screen renderer's compositor and `hexToRGB` are the same members as the light canvas's. The model does not restate them a second time.
