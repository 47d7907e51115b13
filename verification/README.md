# XD.js core, modelled in Dafny

XD.js is a small WebGL 2D game engine written in TypeScript, plus an older canvas
engine in one file, `xd.js`. This project models its core and proves what that core
promises. The core has four parts:

- **Sprite batcher** (`gfx.Renderer`). Between `begin` and `end` a frame queues
  shapes, by `submit` or by `drawSprite`, which builds a quad from the current
  `RendererState`. `end` runs `updateBuffer`. That merges runs of adjacent shapes
  with equal keys into `Batch` records, concatenates their vertices, writes them
  into a flat float array (36 floats per vertex) and uploads it. The vertex buffer
  is reallocated only when the data outgrows it. `renderGeometry` sorts the batches
  by z.
- **Shader program and uniform scanner** (`gfx.ShaderProgram`, `core.StringReader`,
  `Chars`). A program keeps its compiled sources and a `_valid` flag that only
  ever falls. `link` scans each kept source with a hand-written lexer. The lexer
  registers every `uniform` declaration it finds, expanding arrays to one name per
  entry. Uniform setters send a value only for names GL located. Attribute
  locations are memoised.
- **Scene bookkeeping**:
  - `core.Game`: a pending state switch.
  - `core.State`: an entity pool with an inactive free list and a timed
    destruction queue.
  - `ec.Entity` and `ec.Component`: components with started and owner flags,
    and lifecycle hooks.
- **Small pieces**:
  - `Texture.isPO2` and the texture's size, type and wrap bookkeeping.
  - In `xd.js`: the `Math.over` box test, `util.matrix`, the `TileMap` grid, the
    `AnimatedSprite` frame stepper and the entity life countdown.

Every WebGL effect goes through one `Gl.Context` object. It records each call in a
log and hands out fresh object handles. Whatever GL reports back is a parameter of
the operation that asks for it: whether a shader compiles or a program links, a
uniform's location, an attribute's location. Component lifecycle hooks are recorded
the same way, in a `Scene.Hooks` log. Coordinates are reals. Cosine and sine are
parameters.

Modules, in dependency order:

- `Js`: the JavaScript built-ins the code relies on (`indexOf`, `splice`,
  `substr`, `replace`, `split`, `trim`, `Number`).
- `Chars`, `StringReader` and `UniformScanner`: the scanner.
- `Gl` and `Geometry`: the GL context and the value types.
- `Textures`, `Graphics`, `Batching` and `Rendering`: the renderer.
- `Shaders`: the shader program.
- `Scene`: components, entities, states and the game.
- `Legacy`: the `xd.js` pieces.

## Model

| member | source | states |
|---|---|---|
| Chars.LettersAreRegexMatches | src/core/Chars.ts:2-8 | `isLetter` holds exactly for one-character strings whose character is an ASCII letter of either case; `isLetterOrDigit` adds exactly the one-character decimal digits |
| Chars.WhitespaceIsLookup | src/core/Chars.ts:10-12 | `isWhitespace` holds exactly for a length-1 string found in the list tab, LF, CR, space |
| Chars.SymbolIsLookup | src/core/Chars.ts:14-16 | `isSymbol` holds exactly for a length-1 string found in the sixteen-symbol list, which includes `;` |
| Chars.ClassesDisjoint | src/core/Chars.ts:2-16 | the letter/digit, whitespace and symbol classes are pairwise disjoint, and all four predicates reject any string whose length is not 1 |
| Chars.Unclassified | src/core/Chars.ts:2-16 | `_`, `[`, `]`, `,` and every non-ASCII character belong to no class |
| StringReader.CharAt | src/core/StringReader.ts:15-23 | `charAt(i)` is the one-character string at `i` inside the data and "" outside it |
| StringReader.Reader.constructor | src/core/StringReader.ts:9-13 | the cursor starts at 0; `length` is the data's length, or 0 when the data is absent (which reads as "") |
| StringReader.Reader.Peek | src/core/StringReader.ts:15-18 | EOF at the end; otherwise the character one past the cursor, or "" when the cursor is on the last character; the cursor does not move |
| StringReader.Reader.Read | src/core/StringReader.ts:20-23 | before the end: the character under the cursor, which advances by exactly one; at the end: EOF and the cursor stays, so it never passes `length` |
| StringReader.ReadsInOrder | src/core/StringReader.ts:20-23 | `k` successive reads give the remaining characters in order and then EOF on every later read |
| StringReader.NulReadsAsEof | src/core/StringReader.ts:2-23 | a NUL character in the data reads as exactly the EOF sentinel |
| StringReader.PeekIsSecondRead | src/core/StringReader.ts:15-23 | `peek` answers what the read after the next one returns, not what the next read returns |
| Js.SpliceOne | src/core/State.ts:93-94 | `splice(start, 1)` removes the element at `start`; at `-1` (an `indexOf` miss) it removes the last element; past the end it removes nothing |
| Js.SplitJoin | src/gfx/ShaderProgram.ts:205 | `split(" ")` gives pieces that join back to the original text |
| Js.TrimIsInfix | src/gfx/ShaderProgram.ts:202 | `trim` gives a slice of the text with no whitespace at either end |
| Js.NumberOfDigits | src/gfx/ShaderProgram.ts:212 | `Number` of a decimal digit string is its decimal value |
| Js.NumberOfNonNumeric | src/gfx/ShaderProgram.ts:212-213 | `Number` of a text that cannot start a JavaScript number is NaN: its first character is not white space, a digit, a sign or a decimal point, and it does not start with "Infinity" |
| UniformScanner.StatementEnd | src/gfx/ShaderProgram.ts:192 | a statement ends at the first `;` or NUL at or after its start, or at the end of the source |
| UniformScanner.StatementEndAt | src/gfx/ShaderProgram.ts:192 | the end of a statement is pinned down by where its first terminator is |
| UniformScanner.ScanAtEnd | src/gfx/ShaderProgram.ts:187 | the scan at the end of the source or at a NUL finishes and registers nothing |
| UniformScanner.ScanSkips | src/gfx/ShaderProgram.ts:219-221 | between statements a symbol or a whitespace character is skipped |
| UniformScanner.ScanStatement | src/gfx/ShaderProgram.ts:189-218 | at a letter or digit, the statement's text is read up to its end. A text starting with "void" stops the scan. A text starting with "uniform" registers its third token, or throws when it has none. Any other text is skipped |
| UniformScanner.VoidStopsScan | src/gfx/ShaderProgram.ts:195-199 | once a statement starts with "void", the scan ends and nothing after it is registered |
| UniformScanner.NoUniformNoDecls | src/gfx/ShaderProgram.ts:195-204 | a source in which no statement can start with "uniform" registers no name |
| UniformScanner.HangsOnUnclassified | src/gfx/ShaderProgram.ts:187-221 | between statements, a character that is not a letter, digit, symbol or whitespace is never consumed, so the scan never ends |
| UniformScanner.FirstDeclaration | src/gfx/ShaderProgram.ts:189-216 | a source whose first statement is `uniform <type> <name>` registers `<name>` first |
| UniformScanner.UniformStart | src/gfx/ShaderProgram.ts:189-197 | a text starting with "uniform" starts with a letter and not with "void" |
| UniformScanner.StatementOfText | src/gfx/ShaderProgram.ts:192-194 | a terminator-free text followed by a terminator or the end is read as one statement |
| UniformScanner.DeclarationStep | src/gfx/ShaderProgram.ts:204-218 | a declaration statement registers its third token, then the scan continues after the statement |
| UniformScanner.DeclOfArrayAt | src/gfx/ShaderProgram.ts:207-214 | a name with its first `[` at `i` declares an array whose base is `substr(0, i-1)` and whose count text is the rest with one `[` and one `]` removed |
| UniformScanner.DeclOfPlain | src/gfx/ShaderProgram.ts:215-216 | a name without `[` is registered as it stands |
| UniformScanner.CountText | src/gfx/ShaderProgram.ts:209-211 | for `base[count]`, the first `[` is right after the base, and the bracket removal leaves exactly the count |
| UniformScanner.ArrayNameParts | src/gfx/ShaderProgram.ts:207-211 | `base[count]` declares an array under the base cut one character short, with the count text |
| UniformScanner.BaseText | src/gfx/ShaderProgram.ts:208 | cutting `base[count]` one before its `[` is the base cut one short |
| UniformScanner.ArrayDeclaration | src/gfx/ShaderProgram.ts:207-214 | `base[digits]` registers under `base` minus its last character (the truncation quirk) with the digits as count |
| UniformScanner.ArrayRegistered | src/gfx/ShaderProgram.ts:207-214 | `base[digits]` asks GL for the entries of the cut base, as many as the digits' value |
| UniformScanner.DigitsHaveNoBrackets | src/gfx/ShaderProgram.ts:209-211 | a digit string contains no bracket, so bracket removal leaves it whole |
| UniformScanner.EntryNames | src/gfx/ShaderProgram.ts:111-115 | an array of count `n` asks for `base[0]` to `base[n-1]` in order, and for `[0]`, `[1]`, ... when the base is empty |
| UniformScanner.NonNumericCountRegistersNothing | src/gfx/ShaderProgram.ts:212-214 | a count that cannot start a JavaScript number is NaN; the `== NaN` guard never fires and the entry loop never runs, so nothing is registered |
| UniformScanner.EntryList | src/gfx/ShaderProgram.ts:113-114 | the list of entry names `base[0]..base[m-1]` has length `m` |
| UniformScanner.EntryListAt | src/gfx/ShaderProgram.ts:113-114 | entry `k` of that list is `base[k]` |
| UniformScanner.EntriesSnoc | src/gfx/ShaderProgram.ts:187-218 | one more declared name adds its own entries after the others |
| UniformScanner.EntriesAppend | src/gfx/ShaderProgram.ts:187-218 | the entries of two runs of declared names are the entries of each, in order |
| UniformScanner.StartsWithSnoc | src/gfx/ShaderProgram.ts:193-195 | after one more character, the text starts with a word exactly when it did before or the whole text now is that word |
| UniformScanner.StartsWithExtends | src/gfx/ShaderProgram.ts:193-196 | once the text read so far starts with "uniform", every longer text read does too |
| UniformScanner.PrefixKeepsNoPrefix | src/gfx/ShaderProgram.ts:193-197 | a prefix of a text that does not start with a word does not start with it either |
| Shaders.ShaderProgram.constructor | src/gfx/ShaderProgram.ts:33-39 | empty tables and sources, a freshly created GL program, and valid |
| Shaders.ShaderProgram.Bind | src/gfx/ShaderProgram.ts:45-51 | uses the program only while it is valid |
| Shaders.ShaderProgram.Unbind | src/gfx/ShaderProgram.ts:53-55 | uses no program |
| Shaders.ShaderProgram.AddShader | src/gfx/ShaderProgram.ts:57-74 | a null or empty source changes nothing. Otherwise a shader is created (through `createShader`), given the source and compiled. If it compiled, it is attached and the source kept; if not, it is deleted and the program becomes invalid. Validity never rises |
| Shaders.ShaderProgram.Link | src/gfx/ShaderProgram.ts:76-93 | an invalid program is left alone. A failed link invalidates it. A successful one scans every kept source in the order added, up to the first scan that throws or hangs. The uniform table and the GL log equal those of registering all the names found |
| Shaders.ShaderProgram.GetAttributeLocation | src/gfx/ShaderProgram.ts:95-100 | GL is asked only for a name not asked before; later calls return the memo, and no name is asked twice |
| Shaders.ShaderProgram.AddUniform | src/gfx/ShaderProgram.ts:102-109 | asks GL for the name's location; the name enters the table, and true is returned, exactly when GL gives one |
| Shaders.ShaderProgram.AddUniformArray | src/gfx/ShaderProgram.ts:111-117 | asks GL for `name[0]` to `name[n-1]` in order, registering each located one; returns the last attempt's result, and true when the loop does not run |
| Shaders.ShaderProgram.GetUniform | src/gfx/ShaderProgram.ts:119-128 | the recorded location, or none for a name not in the table |
| Shaders.ShaderProgram.Sent | src/gfx/ShaderProgram.ts:130-180 | a setter sends one `uniform*` call with the recorded location for a name in the table, and nothing for any other name |
| Shaders.ShaderProgram.SetInt | src/gfx/ShaderProgram.ts:130-134 | `uniform1i` with the value, only for a known name |
| Shaders.ShaderProgram.SetFloat | src/gfx/ShaderProgram.ts:136-140 | `uniform1f` with the value, only for a known name |
| Shaders.ShaderProgram.SetFloat2 | src/gfx/ShaderProgram.ts:142-146 | `uniform2f`, only for a known name |
| Shaders.ShaderProgram.SetFloat3 | src/gfx/ShaderProgram.ts:148-152 | `uniform3f`, only for a known name |
| Shaders.ShaderProgram.SetFloat4 | src/gfx/ShaderProgram.ts:154-158 | `uniform4f`, only for a known name |
| Shaders.ShaderProgram.SetVector2 | src/gfx/ShaderProgram.ts:160-162 | `setFloat2` with the vector's components |
| Shaders.ShaderProgram.SetVector3 | src/gfx/ShaderProgram.ts:164-166 | `setFloat3` with the vector's components |
| Shaders.ShaderProgram.SetVector4 | src/gfx/ShaderProgram.ts:168-170 | `setFloat4` with the vector's components |
| Shaders.ShaderProgram.SetColor | src/gfx/ShaderProgram.ts:172-174 | `setFloat4` with red, green, blue, alpha |
| Shaders.ShaderProgram.SetMatrix4 | src/gfx/ShaderProgram.ts:176-180 | `uniformMatrix4fv` with the 16 numbers, only for a known name |
| Shaders.ShaderProgram.Declare | src/gfx/ShaderProgram.ts:204-218 | a declaration's text throws without a third token; otherwise an array name registers its entries and a plain name registers itself |
| Shaders.ShaderProgram.Statement | src/gfx/ShaderProgram.ts:189-218 | one statement read through the reader agrees with the reference scan of the source: it continues, stops at "void", or throws, with the table and log extended accordingly |
| Shaders.ShaderProgram.ParseStep | src/gfx/ShaderProgram.ts:187-221 | one turn of the outer loop agrees with the reference scan, including the turn that hangs on an unclassified character |
| Shaders.ShaderProgram.ParseUniforms | src/gfx/ShaderProgram.ts:182-223 | the pass ends as the reference scan of the source does (finished, thrown or hanging), and the table and GL log are those of registering every name the scan finds, in order |
| Shaders.ReadStatement | src/gfx/ShaderProgram.ts:190-201 | reads a statement from its first character to its end, or stops as soon as the text read is "void"; the text read is the source slice |
| Shaders.TerminatorIffAtEnd | src/gfx/ShaderProgram.ts:192 | the reader's character is `;` or EOF exactly at the statement's end |
| Shaders.Queries | src/gfx/ShaderProgram.ts:103 | one `getUniformLocation` call per name, in order |
| Shaders.QueriesSnoc | src/gfx/ShaderProgram.ts:103 | one more name adds one query at the end |
| Shaders.QueriesAppend | src/gfx/ShaderProgram.ts:103 | the queries of two runs of names are those of each, in order |
| Shaders.RegisterAllSnoc | src/gfx/ShaderProgram.ts:103-107 | registering one more name adds it with GL's location when there is one, and otherwise leaves the table |
| Shaders.RegisterAllAppend | src/gfx/ShaderProgram.ts:103-107 | registering two runs of names is registering one after the other |
| Shaders.RegisterAllContents | src/gfx/ShaderProgram.ts:102-109 | a name is in the table after registration exactly when it was before or GL located it; located names get GL's location and the others keep theirs |
| Shaders.ScanAllSnoc | src/gfx/ShaderProgram.ts:89-91 | after a finished scan, the next source's scan continues the names |
| Shaders.ScanAllHalted | src/gfx/ShaderProgram.ts:89-91 | once a source's scan throws or hangs, no later source is scanned |
| Shaders.AgreesAtVoid | src/gfx/ShaderProgram.ts:197-199 | a statement starting with "void" ends the whole scan with the names found so far |
| Shaders.AgreesPastStatement | src/gfx/ShaderProgram.ts:189-204 | a statement that is no declaration adds no name |
| Shaders.AgreesAtCrash | src/gfx/ShaderProgram.ts:205-207 | a declaration with fewer than three tokens ends the scan by throwing |
| Shaders.AgreesPastDeclaration | src/gfx/ShaderProgram.ts:204-218 | a declaration with a third token adds that token |
| Shaders.RegisterEntriesSnoc | src/gfx/ShaderProgram.ts:204-218 | registering one more declaration's entries continues the table |
| Shaders.QueriesEntriesSnoc | src/gfx/ShaderProgram.ts:204-218 | asking for one more declaration's entries continues the log |
| Shaders.RegisterEntriesAppend | src/gfx/ShaderProgram.ts:89-91 | registering the entries of further declarations continues the table |
| Shaders.QueriesEntriesAppend | src/gfx/ShaderProgram.ts:89-91 | asking for the entries of further declarations continues the log |
| Shaders.OutcomeOf | src/gfx/ShaderProgram.ts:89-91 | a link is complete exactly when its scan finished, and throws or hangs exactly when the scan did |
| Gl.Context.constructor | src/core/XD.ts:2 | no calls yet and handle 1 next |
| Gl.Context.Issue | src/core/XD.ts:2 | one GL call appended to the log |
| Gl.Context.Create | src/core/XD.ts:2 | a `create*` call returns a handle no earlier call returned |
| Geometry.Rgb | src/gfx/Color.ts:8-13 | a colour built from three components has alpha 1 |
| Graphics.PrimitiveCode | src/gfx/Shape.ts:2-6 | TRIANGLES is 0, TRIANGLE_STRIP is 1 and TRIANGLE_FAN is 2, and no value is 3 or more |
| Graphics.PrimitiveCodesDistinct | src/gfx/Shape.ts:2-6 | TRIANGLES, TRIANGLE_STRIP and TRIANGLE_FAN have distinct values |
| Graphics.DefaultStateFields | src/gfx/RendererState.ts:3-9 | a fresh state is at (0,0,0), scale (1,1), uv (0,0,1,1), origin (0,0), colour (1,1,1,1), rotation 0, blend NORMAL |
| Graphics.Copy | src/gfx/RendererState.ts:11-21 | `copy` equals the original field by field |
| Graphics.CopyOfCopy | src/gfx/RendererState.ts:11-21 | a copy of a copy equals the original |
| Textures.BitAnd | src/gfx/Texture.ts:101 | `a & b` is at most each operand |
| Textures.BitAndSelf | src/gfx/Texture.ts:101 | `y & y == y` |
| Textures.BitAndPredecessor | src/gfx/Texture.ts:101 | for positive `x`, `x & (x-1) == 0` exactly when `x` is a power of two |
| Textures.IsPO2IffPowerOfTwo | src/gfx/Texture.ts:100-102 | on 32-bit sizes, `isPO2(x)` holds exactly when `x` is a power of two |
| Textures.IsPO2Zero | src/gfx/Texture.ts:101 | `isPO2(0)` is false |
| Textures.WrapFor | src/gfx/Texture.ts:75-79 | the wrap mode is CLAMP_TO_EDGE or REPEAT |
| Textures.WrapChoice | src/gfx/Texture.ts:75-79 | REPEAT exactly when both sides are powers of two, CLAMP_TO_EDGE otherwise |
| Textures.Texture.constructor | src/gfx/Texture.ts:14-18 | width 0, height 0, no type and no GL texture |
| Textures.Texture.SetFilter | src/gfx/Texture.ts:32-35 | the two filter parameters, min then mag |
| Textures.Texture.SetWrap | src/gfx/Texture.ts:37-40 | the two wrap parameters, s then t |
| Textures.Texture.SetToEmpty | src/gfx/Texture.ts:42-64 | records exactly the given size and type; creates and binds a new texture, sets linear filtering and edge clamping, allocates an empty image of the type's format, and unbinds |
| Textures.Texture.SetToImage | src/gfx/Texture.ts:66-83 | records the image's size and RGBA; nearest filtering; the wrap mode of `WrapFor`; uploads and unbinds |
| Textures.Texture.Bind | src/gfx/Texture.ts:85-90 | selects the unit only when a slot is given, then binds this texture |
| Textures.Texture.Unbind | src/gfx/Texture.ts:92-94 | binds no texture |
| Batching.MergeRule | src/gfx/Renderer.ts:344-365 | a shape with its predecessor's texture, z, primitive and blend mode adds no batch and grows the last one by its vertex count; any other shape opens a batch with its own keys where the last one ends |
| Batching.RunAfterCount | src/gfx/Renderer.ts:344-368 | the merge loop adds one batch per shape whose keys differ from its predecessor's |
| Batching.BatchCount | src/gfx/Renderer.ts:332-368 | the batches of a queue are one plus the number of key changes between neighbours |
| Batching.StepKeepsFirst | src/gfx/Renderer.ts:349-365 | no step of the merge loop moves the first batch |
| Batching.RunAfterKeepsFirst | src/gfx/Renderer.ts:344-368 | the merge loop never moves the first batch |
| Batching.FirstBatchAtZero | src/gfx/Renderer.ts:334-341 | the first batch starts at offset 0 |
| Batching.StepKeepsContiguous | src/gfx/Renderer.ts:349-365 | one step keeps every batch starting where the one before it ends |
| Batching.RunAfterKeepsContiguous | src/gfx/Renderer.ts:344-368 | the merge loop keeps the batches contiguous |
| Batching.BatchesContiguous | src/gfx/Renderer.ts:332-368 | each batch starts at the previous batch's offset plus its final vertex count |
| Batching.RunAfterEnd | src/gfx/Renderer.ts:344-368 | the last batch's end moves by the vertices of the shapes merged |
| Batching.BatchesCoverVertices | src/gfx/Renderer.ts:332-368 | the last batch ends at the total vertex count, so the batches partition the vertex list |
| Batching.RunAfterLastKeys | src/gfx/Renderer.ts:344-365 | after the loop, the last batch carries the last shape's keys |
| Batching.LastBatchKeys | src/gfx/Renderer.ts:332-368 | the last batch carries the keys of the last shape |
| Batching.StartPlaced | src/gfx/Renderer.ts:332-341 | the first shape's batch holds its vertices at offset 0 and carries its keys |
| Batching.StepPlaced | src/gfx/Renderer.ts:349-365 | one step keeps every shape so far inside the batch of its index with that batch carrying its keys, and the new shape lands in the grown last batch or in the batch it opens |
| Batching.RunAfterPlaced | src/gfx/Renderer.ts:344-368 | the merge loop keeps every shape inside the batch of its index, carrying its keys |
| Batching.EveryShapeInItsBatch | src/gfx/Renderer.ts:332-368 | every shape's vertex range lies inside one batch whose texture, z, primitive and blend mode are the shape's; shape indices map to batches in order, the last shape's to the last batch |
| Batching.ShapeVertices | src/gfx/Renderer.ts:333-367 | the concatenated vertex list holds each shape's vertices at the count of vertices queued before it |
| Batching.SumCountsSnoc | src/gfx/Renderer.ts:354-364 | the sum of counts over one more batch adds its count |
| Batching.StepSumCounts | src/gfx/Renderer.ts:349-365 | one step adds the shape's vertex count to the sum of batch counts |
| Batching.RunAfterSumCounts | src/gfx/Renderer.ts:344-368 | the loop adds the vertices of the shapes merged to the sum of batch counts |
| Batching.CountsSumToVertices | src/gfx/Renderer.ts:332-368 | the batches' vertex counts add up to the number of vertices queued |
| Batching.ShapeComparatorOrdersNothing | src/gfx/Renderer.ts:325-328 | the shape comparator never says "before": 0 exactly when a texture is missing, otherwise greater both ways |
| Batching.ZComparatorNeverEqual | src/gfx/Renderer.ts:229-231 | the z comparator never answers "equal": "before" exactly when z is smaller, and greater both ways at equal z |
| Batching.InsertByZKeeps | src/gfx/Renderer.ts:229-231 | inserting a batch keeps every batch |
| Batching.InsertByZSorted | src/gfx/Renderer.ts:229-231 | inserting a batch into a z-sorted list keeps it sorted |
| Batching.SortByZSortsAndKeeps | src/gfx/Renderer.ts:229-231 | an order by non-decreasing z that is a permutation of the batches exists |
| Batching.Layout | src/gfx/Renderer.ts:370-383 | one vertex takes 36 floats, slot by slot as `Slot` lays them out |
| Batching.Flatten | src/gfx/Renderer.ts:370-384 | the float array has 36 floats per vertex |
| Batching.FlattenSnoc | src/gfx/Renderer.ts:373-384 | the array of one more vertex adds that vertex's 36 floats |
| Batching.FlattenAt | src/gfx/Renderer.ts:373-384 | float `k` of vertex `i` sits at `36 i + k`: position, uv and colour at `k` = 0..8 and 0 in the other slots |
| Rendering.SpriteShapeLayout | src/gfx/Renderer.ts:120-193 | a sprite is six vertices TL, TR, BR, BR, BL, TL, all at the state's z and in its colour, with UVs (u1,v1), (u2,v1), (u2,v2), (u2,v2), (u1,v2), (u1,v1), drawn as TRIANGLES with the state's blend mode |
| Rendering.SpriteCornersUnrotated | src/gfx/Renderer.ts:127-153 | with rotation 0 and origin (0,0), the corners are the position plus (0,0), (w,0), (w,h), (0,h), with w and h the scaled texture size times the uv size |
| Rendering.UploadReallocatesIffGrows | src/gfx/Renderer.ts:386-392 | the buffer is reallocated exactly when the new size exceeds the capacity, and the data is always written at offset 0 |
| Rendering.FillVertexData | src/gfx/Renderer.ts:370-384 | the fill loop leaves a new array equal to the flattened vertex list |
| Rendering.WriteVertex | src/gfx/Renderer.ts:374-382 | the nine writes of one vertex, and no other float changes |
| Rendering.LayoutWritten | src/gfx/Renderer.ts:374-383 | nine written floats over zeros are exactly one vertex's layout |
| Rendering.JoinAt | src/gfx/Renderer.ts:373-384 | a prefix of the array is the prefix up to `k` and then the slice after it |
| Rendering.AppendBatches | src/gfx/Renderer.ts:332-368 | the merge loop, growing the last batch in place, appends exactly `BatchesOf(shapes)` and concatenates the shapes' vertices |
| Rendering.OpenStep | src/gfx/Renderer.ts:349-362 | a shape opening a batch appends it at the end of the last one |
| Rendering.GrowStep | src/gfx/Renderer.ts:363-365 | a shape joining the last batch grows its count in place |
| Rendering.Renderer.constructor | src/gfx/Renderer.ts:17-24 | the default state, empty queues, capacity 0 and a freshly created vertex buffer |
| Rendering.Renderer.Begin | src/gfx/Renderer.ts:210-213 | empties the shape queue and the batch list |
| Rendering.Renderer.Submit | src/gfx/Renderer.ts:196-200 | appends the shape only when one is given |
| Rendering.Renderer.DrawSprite | src/gfx/Renderer.ts:120-194 | without a texture, nothing; otherwise exactly one shape, the state's quad, is appended; at rotation 0, with `cos 0 = 1` and `sin 0 = 0`, it is the unrotated quad of `SpriteCornersUnrotated` |
| Rendering.Renderer.Save | src/gfx/Renderer.ts:276-280 | returns the current state and installs the default one |
| Rendering.Renderer.Restore | src/gfx/Renderer.ts:310-312 | installs exactly the given state |
| Rendering.Renderer.SetPosition | src/gfx/Renderer.ts:282-284 | changes only the position |
| Rendering.Renderer.SetScale | src/gfx/Renderer.ts:286-288 | changes only the scale |
| Rendering.Renderer.SetOrigin | src/gfx/Renderer.ts:290-292 | changes only the origin |
| Rendering.Renderer.SetUV | src/gfx/Renderer.ts:294-296 | changes only the uv rectangle |
| Rendering.Renderer.SetColor | src/gfx/Renderer.ts:298-300 | changes only the colour |
| Rendering.Renderer.SetRotation | src/gfx/Renderer.ts:302-304 | changes only the rotation |
| Rendering.Renderer.SetBlendMode | src/gfx/Renderer.ts:306-308 | changes only the blend mode |
| Rendering.Renderer.End | src/gfx/Renderer.ts:320-395 | an empty queue changes nothing. Otherwise the queue is permuted; a first shape without vertices throws before any batch is added. Otherwise the queue's batches are appended and its flattened vertices uploaded, the capacity becoming the larger of old and new size |
| Rendering.Renderer.Upload | src/gfx/Renderer.ts:386-394 | bind, reallocate only when growing, write at offset 0, unbind; the capacity never decreases |
| Rendering.Renderer.SortBatchesByZ | src/gfx/Renderer.ts:229-231 | the batches are permuted into non-decreasing z |
| Scene.Hooks.constructor | src/ec/Component.ts:13-16 | no hook has been called |
| Scene.Hooks.Call | src/ec/Component.ts:13-16 | one hook call appended to the log |
| Scene.StartEventsExactlyOnce | src/ec/Entity.ts:67-74 | a start pass calls `onStart` on a component exactly when it is in the list and not yet started, and at most once |
| Scene.StartEventsSkip | src/ec/Entity.ts:69 | a component already started gets no `onStart` |
| Scene.StartEventsLocal | src/ec/Entity.ts:67-74 | only the started flags of the list's own components matter to a start pass |
| Scene.UpdateEventsLocal | src/ec/Entity.ts:82-90 | only the started flags of the list's own components matter to an update pass |
| Scene.UpdatesInAppend | src/ec/Entity.ts:88 | the updates of two logs are those of each, in order |
| Scene.UpdatesInCons | src/ec/Entity.ts:88 | the updates of a log with one more call in front |
| Scene.UpdateEventsUpdateAll | src/ec/Entity.ts:82-90 | an update pass calls `onUpdate` on every component, once each, in list order |
| Scene.UpdateEventsStartUnstarted | src/ec/Entity.ts:84-87 | an update pass calls `onStart` only on components of the list that had not started |
| Scene.Component.constructor | src/ec/Component.ts:7-11 | enabled, not started, no owner |
| Scene.Component.OnStart | src/ec/Component.ts:13 | the hook is called and nothing else changes |
| Scene.Component.OnUpdate | src/ec/Component.ts:15 | the hook is called and nothing else changes |
| Scene.Component.OnRender | src/ec/Component.ts:14 | the hook is called and nothing else changes |
| Scene.Component.OnDestroy | src/ec/Component.ts:16 | the hook is called and nothing else changes |
| Scene.Component.Clone | src/ec/Component.ts:18-22 | a new base component with the original's `enabled`, not started and without owner, whatever the original's flags |
| Scene.Entity.constructor | src/ec/Entity.ts:12-14 | the defaults of `reset` without a model |
| Scene.Entity.Reset | src/ec/Entity.ts:24-42 | without a model: position (0,0,0), rotation 0, scale (1,1), tag "", no components, the given state. With one: its position, rotation, scale and tag, and clones of its components appended to the existing list, not replacing it |
| Scene.Entity.Add | src/ec/Entity.ts:48-52 | the entity becomes the owner, the component is appended, and the entity is returned |
| Scene.Entity.Get | src/ec/Entity.ts:58-65 | the first component that is an instance of the class, or null exactly when there is none |
| Scene.Entity.Has | src/ec/Entity.ts:54-56 | holds exactly when `get` finds one |
| Scene.Entity.OnStart | src/ec/Entity.ts:67-74 | every component has started, and the hook log gained exactly the start pass over the unstarted ones; no component's `enabled` or `owner` changes |
| Scene.Entity.OnUpdate | src/ec/Entity.ts:82-90 | every component has started, and each got `onUpdate`, preceded by `onStart` when it had not started; no component's `enabled` or `owner` changes |
| Scene.Entity.OnRender | src/ec/Entity.ts:76-80 | `onRender` on each component, in order |
| Scene.Entity.Destroy | src/ec/Entity.ts:44-46 | delegates to its own state's `destroy` |
| Scene.Entity.Clone | src/ec/Entity.ts:92-102 | a new entity in the same state, with copies of position, rotation, scale and tag and clones of the components in order, owned by the copy |
| Scene.StartAndUpdate | src/ec/Entity.ts:84-88 | one step of the update loop: start when not started, then update |
| Scene.UpdateLogUpdatesAll | src/core/State.ts:98-100 | the update pass over the entities calls `onUpdate` on all their components, entity by entity, in order |
| Scene.CoverStep | src/core/State.ts:73-75 | the components covered grow list by list |
| Scene.DestroyLogSnoc | src/core/State.ts:89-91 | one more destroyed entity adds its components' `onDestroy` calls |
| Scene.DestroyComponents | src/core/State.ts:89-91 | `onDestroy` on each component of the entity, in order |
| Scene.AfterDestroyKeepsDistinct | src/core/State.ts:47-59 | `destroy` never queues an entity twice, queues one of this state, and a second call changes nothing |
| Scene.SweepStep | src/core/State.ts:86-95 | one step of the sweep never lengthens the queue |
| Scene.SweepKeepsEntities | src/core/State.ts:85-96 | the sweep only removes active entities and only appends to the inactive list |
| Scene.DistinctSplice | src/core/State.ts:94 | removing one entry keeps the queue free of duplicates |
| Scene.SweepKeepsDistinct | src/core/State.ts:85-96 | the sweep keeps the queue free of duplicates |
| Scene.SweepCountsDown | src/core/State.ts:86-87 | when every entry has time left, the sweep only subtracts `dt` from each |
| Scene.SweepSkipsNext | src/core/State.ts:85-95 | of two expired entries in a row, the first is removed and the second is skipped that tick |
| Scene.SweepStaleRemovesLast | src/core/State.ts:85-95 | an expired entry for an entity no longer active removes the last active entity, splicing at -1, and pushes a duplicate into the inactive list |
| Scene.State.constructor | src/core/State.ts:11-15 | three empty lists |
| Scene.State.Create | src/core/State.ts:17-30 | reuses and resets the first inactive entity, taking it off the inactive list, or makes a new one; either way it is appended to the entities |
| Scene.State.Spawn | src/core/State.ts:32-45 | reuses the first inactive entity reset from the model, or clones the model; either way with the model's fields, appended to the entities |
| Scene.State.Destroy | src/core/State.ts:47-59 | queues the entity unless it is queued already or belongs to another state |
| Scene.State.Get | src/core/State.ts:61-70 | the first entity with a component of the class, or null exactly when there is none |
| Scene.State.OnStart | src/core/State.ts:72-76 | every component of every entity has started, by start passes entity by entity; no component's `enabled` or `owner` changes |
| Scene.State.OnRender | src/core/State.ts:78-82 | render passes entity by entity |
| Scene.State.OnUpdate | src/core/State.ts:84-101 | the sweep as `SweepFrom` describes it, with `onDestroy` on each removed entity's components, then the update pass over the remaining entities |
| Scene.State.UpdateEntities | src/core/State.ts:98-100 | the update pass: every component started and updated, entity by entity; no component's `enabled` or `owner` changes |
| Scene.State.Sweep | src/core/State.ts:85-96 | the sweep walking the queue by index while splicing it, equal to `SweepFrom` |
| Scene.State.SweepEntry | src/core/State.ts:86-95 | one entry: count down when time is left, otherwise destroy its components and move the entity |
| Scene.Game.constructor | src/core/Game.ts:8-13 | no states, current and next names "", no switch pending |
| Scene.Game.RegisterState | src/core/Game.ts:15-22 | a new state only for an unknown name; a known name gives its state back and changes nothing |
| Scene.Game.SetState | src/core/Game.ts:24-29 | the next name is set and a switch requested only when the name differs from the next name; otherwise nothing changes |
| Scene.Game.OnUpdate | src/core/Game.ts:42-55 | on a pending switch to a non-empty name: that name becomes current, its state starts and the flag clears, with no update that tick. Otherwise the current state, if named, is updated. Looking up an unregistered name throws |
| Scene.Game.Switch | src/core/Game.ts:43-48 | the switching branch: the current name becomes the next name, the state's `onStart` runs and the flag clears |
| Scene.Game.Tick | src/core/Game.ts:49-54 | the other branch: forwards the update only when the current name is non-empty |
| Scene.Game.OnRender | src/core/Game.ts:35-40 | renders only when no switch is pending and the current name is non-empty |
| Legacy.OverSymmetric | xd.js:29-34 | the overlap test does not depend on the order of its arguments |
| Legacy.TouchingBoxesDoNotOverlap | xd.js:29-34 | boxes that only share an edge do not overlap |
| Legacy.OverIffCommonPoint | xd.js:29-34 | for boxes of positive size, the test holds exactly when some point lies strictly inside both |
| Legacy.Matrix | xd.js:11-17 | `h` rows of `w` holes each |
| Legacy.SetAt | xd.js:157 | a JavaScript array write: a negative index leaves the elements alone; otherwise the cell gets the value, the others keep theirs and any gap is holes |
| Legacy.TileMap.constructor | xd.js:129-138 | no grid, all dimensions 0 |
| Legacy.TileMap.Setup | xd.js:139-147 | records the dimensions and allocates `mapH` rows of `mapW` holes |
| Legacy.TileMap.SetMap | xd.js:148-155 | adopts the grid and its dimensions; an empty grid throws and changes nothing |
| Legacy.TileMap.Put | xd.js:156-159 | writes one cell of row `y`; a missing row throws |
| Legacy.PutChangesOneCell | xd.js:156-159 | `put(x, y, k)` changes only cell `(x, y)` |
| Legacy.Rem | xd.js:239 | JavaScript `%`: the remainder takes the dividend's sign and is smaller than the divisor in magnitude |
| Legacy.RemSigns | xd.js:239 | negating the dividend negates the remainder, the divisor's sign does not matter, and on naturals it is Dafny's `%` |
| Legacy.FloorDivision | xd.js:240 | `Math.floor(a / c)` for a positive divisor is integer division |
| Legacy.Advance | xd.js:228-235 | time grows by `dt`; once it reaches the speed it resets to 0 and the index steps, wrapping to 0 or sticking at the last frame past the end |
| Legacy.AdvanceStaysInRange | xd.js:231-234 | an index within the frames stays within them |
| Legacy.LoopingCycles | xd.js:231-234 | a looping animation whose every update reaches the speed shows frame `(index + n) % len` after `n` updates |
| Legacy.OnceStops | xd.js:231-234 | a non-looping animation stops at the last frame |
| Legacy.RegionInSheet | xd.js:236-241 | a cell of the sheet gives the region `[(i % cols)/cols, floor(i/cols)/rows, 1/cols, 1/rows]`, inside the unit square |
| Legacy.Fraction | xd.js:237-240 | cell `k` of `n` spans `[k/n, (k+1)/n]` inside the unit interval |
| Legacy.AnimatedSprite.constructor | xd.js:201-206 | no animations, no current one, a 0 by 0 sheet and the whole image as region |
| Legacy.AnimatedSprite.Setup | xd.js:207-210 | stores `conf = [cols, rows]` |
| Legacy.AnimatedSprite.AddAnim | xd.js:211-221 | stores the animation at time 0 and index 0, frames defaulting to empty; only the first animation added becomes current |
| Legacy.AnimatedSprite.Update | xd.js:225-243 | nothing without a current animation; otherwise advances it and sets the region of the frame it shows; a current name that is not registered throws |
| Legacy.Part.constructor | xd.js:62-68 | a new component is active |
| Legacy.ActivePartsExactly | xd.js:379-383 | the parts updated are exactly the active ones |
| Legacy.Countdown | xd.js:372-378 | life -1 or below is left alone; a positive life drops by `dt`; a life in (-1, 0] marks the entity dead |
| Legacy.LowLifeNeverDies | xd.js:372-378 | a life of -1 or below never changes and never marks the entity dead |
| Legacy.OvershootNeverDies | xd.js:372-378 | a life that drops from above 0 to -1 or below in one update never marks the entity dead |
| Legacy.DeadStaysDead | xd.js:372-378 | once dead, an entity stays dead |
| Legacy.Entity.constructor | xd.js:256-268 | immortal (life -1), alive and without parts |
| Legacy.Entity.Kill | xd.js:286-288 | life becomes 0, so the next update marks the entity dead |
| Legacy.Entity.Revive | xd.js:289-292 | alive again and immortal |
| Legacy.Entity.Update | xd.js:371-384 | the life countdown, then `update` on each active part in order |

## Left out

- Every `XD.GL` effect is a call recorded in `Gl.Context`. Its results are parameters: compile status, link status, uniform and attribute locations, and texture and buffer handles from the context's counter. The attribute setup, blend switch and `drawArrays` of `renderGeometry` are not modelled; only its z sort is.
- Rendering.Renderer.constructor: does not model the built-in shader program, the GL state it sets, the projection and view matrices or the viewport.
- `Renderer.resize`, `unproject`, `clear`, `clearColor` and `render` are matrix and float numerics or plain GL calls, and are not modelled.
- Coordinates and times are reals, not doubles: no rounding, infinities or NaN. `cos` and `sin` are parameters of `DrawSprite`.
- Float32Array storage is modelled as `array<real>`; float narrowing is not modelled.
- Rendering.Renderer.End: the order of the shape sort is left open, since its comparator orders nothing. Any permutation is allowed, and the batch properties hold for every one.
- Rendering.Renderer.SortBatchesByZ: which of several batches at equal z comes first is left open, since the comparator never answers "equal".
- Reference aliasing is not modelled. The setters store the caller's objects, all quad vertices share one `Color`, and `copy` allocates fresh sub-objects. States, shapes, vertices and batches are values here.
- `Vertex` fields are never null in the model. A `new Vertex()` with omitted arguments is not modelled.
- `core.Dict` is a Dafny map. Inherited property names such as "constructor", which JavaScript's lookup would report as present, are not.
- Js.ToNumber: `Number()` is exact for blank text (0), for decimal digit runs with surrounding white space, and for every other text that cannot start a JavaScript number, such as digits followed by other characters (NaN). Text starting with a sign, a decimal point or "Infinity", and fractions, exponents and hexadecimal, octal or binary literals, read as NaN here, although JavaScript gives them a number.
- Shaders.ShaderProgram.ParseUniforms: an array count such as `+3`, `1.5` or `0x4` registers nothing here. The engine registers as many entries as there are naturals below the count: 3 for `+3`, 2 for `1.5`, 4 for `0x4`. A count of `Infinity` makes the engine's entry loop in `addUniformArray` never end, issuing location queries forever. The model instead registers nothing and goes on.
- Js.NumberOfNonNumeric: covers only text whose first character is not white space, a digit, `+`, `-` or `.`, and which does not start with "Infinity". For the excluded texts JavaScript's `Number` can give a number, and `ToNumber` does not model it.
- UniformScanner.NonNumericCountRegistersNothing: covers only the counts `NumberOfNonNumeric` covers. Signed, fractional and "Infinity" counts are not covered, and an `Infinity` count hangs the engine.
- Textures.IsPO2IffPowerOfTwo: needs `x < 2^32`. `IsPO2` itself models the 32-bit wrap of `&`. For larger sizes the wrap makes `isPO2` hold where `x` is not a power of two, as for `2^32 + 1`.
- Characters are Unicode scalar values. JavaScript's `charAt` and string indices count UTF-16 code units, so text outside the Basic Multilingual Plane is read differently.
- The `console.error` messages of `addShader`, `link`, `bind` and shader compilation are not modelled. Only the state changes and GL calls around them are.
- Scene.IsA: component classes form one level under `Component`: an instance is of its own class and of `Component` only. Deeper subclass chains are not modelled.
- Legacy.AnimatedSprite.Update: the animation table is a Dafny map. JavaScript's lookup by name would also find inherited property names such as "constructor", and that is not modelled.
- The scanner's hang is modelled as the outcome `Hangs(i)` of a terminating scan, and its crash on a declaration without a name as `Crashed`. The program then reports the outcome instead of looping or throwing.
- Component lifecycle hooks are calls recorded in `Scene.Hooks`. What an overriding subclass hook does is not modelled, and neither is the renderer passed to `onRender`. `enabled` is kept but never consulted, as in the engine.
- `instanceof` is a class tag. A base `clone` yields a base `Component`, so a clone loses its subclass, as in the engine.
- `XD.currentState` is modelled as `Game.current`.
- Looking up a state name that was never registered throws, and is modelled as a `crashed` result.
- Scene.Game.Switch: the state's `onStart` runs before the current-name, current-state and flag fields are written. Nothing the hooks can observe depends on that order.
- Scene.Entity.Reset: reset from a model that is the entity itself is excluded by its precondition. The engine would loop there, cloning the components it is appending.
- Scene.State.Spawn: excludes a model that is the first inactive entity, for the same reason.
- Scene.State.Sweep: works on copies of the three lists and writes them back at the end. A hook that changes the lists during the sweep is not modelled.
- Entity clones and spawned entities get fresh components that are not started. A later hook's effect on them is covered only through the log.
- `TimedDestructor` is a value. Its time is counted down by replacing the entry.
- `core.Engine` (the main loop and timing), `Assets`, `WebUtil` and the `src/math` classes are not modelled: they are timing, DOM, asynchronous loading or float numerics.
- In `xd.js`, the following are not modelled:
  - canvas rendering;
  - `Input`, `AssetManager`, `Stage` and the engine loop;
  - `Entity.collide` and `die`;
  - `clone` methods and `util.clone` (a JSON round trip);
  - `getAnim`.
- Legacy.Matrix: sizes are natural numbers. JavaScript throws on negative or fractional `new Array` lengths, and that is not modelled.
- Legacy.AnimatedSprite.Update: animations are values in a map, so the aliasing of the record `getAnim` hands out is not modelled. Frame entries and indices are integers. A zero sheet dimension or an out-of-range frame gives the region `NonFinite`, standing for JavaScript's NaN or Infinity numbers.
- Legacy.Entity.Update: a part carries only its `active` flag. The parts' own `update(dt)` is returned as the list of parts updated, in order.
