# LuxRender adapter of the FreeCAD Render workbench, in Dafny

The Render workbench exports a FreeCAD scene to an external renderer through one adapter
module per renderer. This project models the LuxRender adapter, `renderers/Luxrender.py`.
The adapter does three things:

- `writeCamera` writes a camera as LuxRender scene text: two comment lines, then
  `LookAt` followed by the position, target and up vectors.
- `writeObject` writes one mesh object: a named matte material, with a transparency
  attribute only when alpha is below one, then an `AttributeBegin` ... `AttributeEnd`
  block. That block holds the identity transform, the material reference, and the
  triangle-index, point and normal arrays.
- `render` rewrites the `integer xresolution` and `integer yresolution` declarations of
  the project's result page. It may point the project at a fresh temporary file. It then
  picks the LuxRender executable from the preferences and composes the shell command
  that launches it.

The project has four modules:

- `Text` (`text.dfy`): substring search, split and join on a separator, and Python's
  `str` of an integer with its inverse.
- `Pattern` (`pattern.dfy`): an exact model of `re.sub` for the one pattern shape the
  adapter uses, `"key".*?\[.*?\]`. The model substitutes the leftmost match, scans on
  from the end of that match, and never lets `.` match a newline. The match it picks is
  proved to be the shortest one allowed by a separate reference definition, `IsMatch`.
- `LuxScene` (`scene.dfy`): `writeCamera` and `writeObject` as pure functions on
  datatypes. Each proof splits the produced text back into lines and tokens, and the
  contracts are stated about those.
- `LuxRender` (`render.dfy`): the decision core of `render`. The result page's text, the
  temporary file's name and the three preferences are parameters. The outcome records
  the patched text, whether the project moved to the temporary file, the project
  afterwards, and the console report, which is either an error or the launched command.

Python's `str` of a float is a parameter, `numStr`. Where a proof needs it, the only
assumption is `OneTokenNumbers`: a formatted number holds no space and no newline.

Three details of the code that the model follows:

- The y presence test reassigns the flag that the x test set (line 134). So the y
  declaration is rewritten whether or not x was present. The move to the temporary file
  depends on the y test alone, and that test sees the text after the x patch (see
  `YAlonePatched`, `XAloneNotSwapped` and `SwapCanMissY`).
- With no executable configured, the resolution patch and the move to the temporary file
  have already happened before the error is reported (lines 131-155).
- The space after the parameters is appended only when there are parameters (lines
  156-157). With none, the command is `prefix + path + " " + page`, not two spaces.

## Model

| member | source | states |
|---|---|---|
| LuxScene.VecText | renderers/Luxrender.py:58-60 | A vector's three coordinates, space separated. `VecTextIsJoin` states that it is the join of the x, y and z texts. |
| LuxScene.LookAtLine | renderers/Luxrender.py:58-66 | The third camera line: `LookAt`, then position, target and up. `LookAtLineIsJoin` and `CameraLookAt` state what it holds. |
| LuxScene.WriteCamera | renderers/Luxrender.py:53-67 | The camera text is non-empty and ends in a newline. |
| LuxScene.CameraNumbers | renderers/Luxrender.py:58-66 | The nine `LookAt` numbers are position x y z, then target x y z, then up x y z. |
| LuxScene.LookAtLineIsJoin | renderers/Luxrender.py:64-66 | The `LookAt` line is the keyword and those nine numbers, separated by single spaces. |
| LuxScene.CameraLookAt | renderers/Luxrender.py:53-67 | The camera text splits into the two fixed comment lines, then a line whose space-separated tokens are exactly `LookAt` and the nine numbers in the order pos, target, up, then nothing after the final newline. |
| LuxScene.CameraIgnoresRotation | renderers/Luxrender.py:53-67 | Two calls that differ only in the rotation give the same text. |
| LuxScene.MaterialName | renderers/Luxrender.py:97-109 | The name `name_mat` that the material is declared under and referenced by. `MaterialNameShared` states that it is used only on those two lines. |
| LuxScene.TransparencyLine | renderers/Luxrender.py:102 | The transparency attribute, alpha between quotes. `TransparencyIffBelowOne` states that it appears exactly when alpha is below one, as the fifth line. |
| LuxScene.MaterialLines | renderers/Luxrender.py:97-102 | The material block has five lines when alpha is below one and four otherwise. |
| LuxScene.ShapeLines | renderers/Luxrender.py:107-116 | The shape block always has ten lines. |
| LuxScene.ObjectLines | renderers/Luxrender.py:97-116 | The object's lines in output order: the material block, a blank line, then the shape block. `ObjectTextLines` and `ObjectLayout` state the order. |
| LuxScene.WriteObject | renderers/Luxrender.py:70-118 | writeObject: each object line followed by a newline. `ObjectTextLines`, `ObjectLayout`, `TransparencyIffBelowOne`, `MaterialNameShared`, `ObjectConstants`, `ObjectColor` and `ObjectArrays` state what the text holds. |
| LuxScene.ObjectTextLines | renderers/Luxrender.py:97-116 | The object text splits at newlines into exactly the material lines, one blank line and the shape lines, with nothing after the final newline. |
| LuxScene.ObjectLayout | renderers/Luxrender.py:97-116 | The blocks come in this order: the `MakeNamedMaterial` line first, then a blank line, then `AttributeBegin`, then `AttributeEnd` as the last line. Every index is shifted by one when the transparency line is present. |
| LuxScene.TransparencyIffBelowOne | renderers/Luxrender.py:101-102 | Some line is a transparency line if and only if alpha < 1.0. That line is the fifth, and it carries alpha inside quotes. |
| LuxScene.MaterialNameShared | renderers/Luxrender.py:97-115 | The material is declared and referenced under the same `name_mat`. The first line is the only one that declares a material, and the `NamedMaterial` line is the only one that refers to one. The object's name appears in the `AttributeBegin` comment and in `string name`. |
| LuxScene.ObjectConstants | renderers/Luxrender.py:99-114 | The sigma, matte type, identity transform, `Shape "mesh"` and tangents lines are the fixed constants, at fixed places for any input. |
| LuxScene.ObjectColor | renderers/Luxrender.py:83-98 | The second line is `"color Kd" [r g b]`: the three colour components in that order, space separated, each one token. |
| LuxScene.ObjectArrays | renderers/Luxrender.py:85-113 | The index, point and normal lines hold their runs. Each run splits into three tokens per input element, in input order, and the indices read back as the very triangles given. |
| LuxScene.VecRun | renderers/Luxrender.py:88-91 | The `P` and `N` loops: three coordinates per vector, each followed by a space. `VecRunSplit` and `CoordinatesAt` state its tokens and their order. |
| LuxScene.TriRun | renderers/Luxrender.py:92-93 | The `tris` loop: three indices per triangle, each followed by a space. `TriRunSplit`, `IndicesAt` and `IndicesRoundTrip` state its tokens and that they read back as the triangles. |
| LuxScene.CoordinatesAt | renderers/Luxrender.py:88-91 | Coordinate j of vector k is token 3k+j of the point or normal run. |
| LuxScene.IndicesAt | renderers/Luxrender.py:92-93 | Index j of triangle k is token 3k+j of the index run. |
| LuxScene.TriRunSplit | renderers/Luxrender.py:92-93 | Splitting the index run at spaces gives the index tokens, then the empty field left by the trailing space. |
| LuxScene.VecRunSplit | renderers/Luxrender.py:88-91 | Splitting a vector run at spaces gives the coordinate tokens, then the empty field left by the trailing space. |
| LuxScene.IndicesRoundTrip | renderers/Luxrender.py:92-93 | Reading the index tokens back three at a time gives the triangles unchanged: no reindexing, reordering or deduplication. |
| Text.Contains | renderers/Luxrender.py:131-134 | The presence test, by a left-to-right scan. `ContainsIffOccurs` ties it to the positional definition. |
| Text.ContainsIffOccurs | renderers/Luxrender.py:131-134 | The presence test `re.findall(key, t)` is non-empty exactly when the key occurs at some position of the text. |
| Text.IntStr | renderers/Luxrender.py:93 | Python's `str` of an integer, as written for triangle indices and resolutions. `IntStrShape` and `IntStrRoundTrip` state its shape and its inverse. |
| Text.IntStrRoundTrip | renderers/Luxrender.py:133 | The decimal text of an integer reads back as that integer. |
| Text.IntStrShape | renderers/Luxrender.py:133 | The decimal text of an integer is non-empty and made only of digits and a leading minus, which appears exactly for negatives. It therefore holds no backslash, so the replacement text is taken literally. |
| Pattern.FindOnLine | renderers/Luxrender.py:133 | A `.*?` followed by a character stops at the first occurrence of that character that has no newline before it. |
| Pattern.MatchEnd | renderers/Luxrender.py:133 | Where the lazy pattern's match at the start of a text ends. Its end lies past the key and the two brackets, and `MatchEndIsShortest` states which match it picks. |
| Pattern.MatchEndIsShortest | renderers/Luxrender.py:133 | The lazy pattern matches at a position exactly when a match of the reference definition exists there, and the match it picks is the shortest one. |
| Pattern.SubAll | renderers/Luxrender.py:133-136 | `re.sub`: it replaces each leftmost match and scans on after it. `SubAllWithoutKey`, `SubAllCreatesNoOccurrence`, `SubAllSkipsLineIndent` and `SubAllDeclaration` state its effect. |
| Pattern.SubAllWithoutKey | renderers/Luxrender.py:133-136 | Text without the quoted key is left unchanged by the substitution. |
| Pattern.SubAllCreatesNoOccurrence | renderers/Luxrender.py:133-134 | The substitution creates no new occurrence of a pattern unless the replacement itself holds it, provided the replacement's first and last characters are not in the pattern. |
| Pattern.SubAllSkipsLineIndent | renderers/Luxrender.py:133-136 | Whole lines without the key, then an indent without a quote, are copied unchanged in front of the substitution of what follows. |
| Pattern.SubAllDeclaration | renderers/Luxrender.py:133-136 | A one-line declaration `"key" ... [ ... ]` that starts a line, indented or not, is replaced exactly and nothing else changes. |
| LuxRender.ResolutionValue | renderers/Luxrender.py:133-136 | The replacement text `"key" [v]`. `ResolutionRewritten` states that a declaration becomes exactly this, and `XValueLacksY` that the x replacement never holds the y key. |
| LuxRender.PatchResolution | renderers/Luxrender.py:131-136 | One resolution patch: substitute when the bare key occurs, otherwise keep the text. `ResolutionRewritten` and `NoResolutionCreated` state its effect. |
| LuxRender.ResolutionRewritten | renderers/Luxrender.py:131-136 | A sole one-line resolution declaration, at the start of a line or after an indent without quotes, becomes `"key" [v]`. The rest of the text stays put. |
| LuxRender.IndentedDeclarationRewritten | renderers/Luxrender.py:131-133 | In `Film "fleximage"` followed by a four-space-indented `"integer xresolution" [800]` line, the x value is rewritten in place. |
| LuxRender.NoResolutionCreated | renderers/Luxrender.py:133-134 | Patching the x resolution never makes the y key appear. |
| LuxRender.Resize | renderers/Luxrender.py:131-137 | A swap implies the y key was in the original text. Without an x key, there is a swap exactly when the y key is present. Text with neither key is left unchanged. |
| LuxRender.TemplatePatched | renderers/Luxrender.py:127-143 | A template declaring x and then y, each at the start of its own line, indented or not, gets both values rewritten in place, and it moves to the temporary file. |
| LuxRender.YAlonePatched | renderers/Luxrender.py:134-143 | A template with only a y declaration, indented or not, is still patched and still moves. |
| LuxRender.XAloneNotSwapped | renderers/Luxrender.py:131-143 | A template with only an x declaration, indented or not, is patched in memory, but it does not move: the result page stays where it was. |
| LuxRender.SwapCanMissY | renderers/Luxrender.py:131-137 | A y key inside an x declaration is consumed by the x patch, so no move happens although the original text held the y key. |
| LuxRender.Executable | renderers/Luxrender.py:147-152 | `external` selects the GUI executable path, and otherwise the console path. `Render` states that the report and command use it. |
| LuxRender.Launch | renderers/Luxrender.py:153-159 | An empty executable path gives exactly the missing-executable error. Otherwise the command is prefix, path, a space, the parameters followed by a space when non-empty, and the page. |
| LuxRender.CommandTokens | renderers/Luxrender.py:156-159 | With an executable set and a page path without spaces, the command splits into the prefixed executable's words, the parameters' words when there are any, and the page as the last word. |
| LuxRender.Render | renderers/Luxrender.py:121-160 | Ties the steps together in order. The result page is the temporary path exactly when the y test fired, and the name and template are untouched. `external` selects the GUI path and otherwise the console path. The error and the command are computed from the page after the move. |

## Left out

- File I/O: reading the result page, and creating, writing and deleting the temporary
  file. The page's text and the temporary file's name are parameters.
- How `mkstemp` builds the temporary file's name from the project name and the template's
  extension. The name is a parameter, so `Project.name` and `Project.template` are only
  carried along.
- `os.remove` of the temporary file, the document recompute and the `os.system` launch.
  These are effects outside the model. `Render` returns the command that would be launched.
  When the page moves, that command names the temporary file, which line 143 has already
  deleted. The model records the name and not whether the file still exists.
- `project.PageResult` is a plain field. Line 158 reads back the value assigned at line
  142, on the assumption that the recompute at line 144 leaves it alone. `Render`'s
  `project.pageResult == tempPath` after a move rests on that reading.
- `FreeCAD.ParamGet` and the console: the preferences arrive as a `Prefs` value, unset
  keys as empty strings. The logged command's trailing newline is not modelled.
- Python's `str` of a float: it is the parameter `numStr`, constrained only by
  `OneTokenNumbers`.
- Python floats are modelled as `real`. NaN, the infinities and `-0.0` have no
  counterpart. With `alpha` NaN, `alpha < 1.0` is false in Python and no
  transparency line is written; the model cannot express that input. `str` prints
  `-0.0` and `0.0` differently, and `numStr` sees one value for both. Binary
  floating-point rounding of the inputs is not modelled.
- Declarations the lemmas about rewriting do not cover: a declaration that shares its
  line with earlier text holding a quote, or one split across lines. `re.sub` still
  applies to them, through `SubAll`, but no lemma states the outcome.
- `re.sub`'s processing of backslash escapes in the replacement string. The replacement
  is a quoted key, digits and a minus sign, so it holds no backslash.
- `re.findall` on the bare key is modelled as a presence test, `Contains`, because only the
  emptiness of its result is used.
- The mesh accessors: `mesh.Topology` and `mesh.getPointNormals()` are the `points`,
  `facets` and `normals` fields of `Mesh`.
- Malformed input that the adapter does not check, such as a name holding a quote.
  Lemmas about split lines require a name without a newline.
- `output`: `render` accepts it but never reads it, and `Render` takes it and ignores it.
- LuxRender.Resize: the move is stated as one direction in general (a move implies the
  y key was present), and as an equivalence only for text without the x key. The x
  patch can consume a y key, as `SwapCanMissY` shows, so the converse fails in general.
