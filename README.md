# Dafny model of the psagot-2020 navigation skeleton

The repository is the starting point of a path-planning contest: a spaceship must fly from a
source to a target point while avoiding observation posts (circles that must not be entered),
asteroids zones (polygons that must not be entered) and radars (circles inside which radial
speed must stay low). The planner itself is not written yet: `navigate` filters its threats into
three lists by kind and returns the straight path `[source, target]`. This project models the code that
exists:

- `coordinate.dfy`, module `Coordinates`: the immutable `Coordinate` value with tolerance-based
  equality (1e-6 per axis), negation, addition, subtraction, scaling, division and Euclidean
  distance. Python's dynamic operand types are an `Operand` datatype, and the `TypeError` and
  `ZeroDivisionError` cases are `Err` results.
- `navigator.dfy`, module `Navigator`: the closed set of threats (observation post, asteroids
  zone, radar), the three `isinstance` filters that split a threat list, and `navigate`.
- `app.dfy`, module `App`: the pure helpers of the Dash front end. These are the hex colour
  parser `_hex_to_rgb`, the scenario-number extraction `_extract_scenario_number_from_path`,
  the path rendering `update_path_text`, and `_parse_scenario_json`, which turns a loaded
  scenario record into coordinates and threats.
- `wrappers.dfy`, module `Wrappers`: the `Result` type that stands for "returns or raises".

Numbers are mathematical reals. Python's float rounding is not modelled.

## Model

| member | source | states |
|---|---|---|
| `Coordinates.Equals` | algorithmics/utils/coordinate.py:50-53 | comparing with a non-Coordinate is false and never raises; two coordinates are equal iff both axis differences lie within 1e-6 |
| `Coordinates.ApproxEqualReflexive` | algorithmics/utils/coordinate.py:53 | every coordinate equals itself |
| `Coordinates.ApproxEqualSymmetric` | algorithmics/utils/coordinate.py:53 | equality is symmetric |
| `Coordinates.ApproxEqualNotTransitive` | algorithmics/utils/coordinate.py:53 | there are a, b, c with a == b and b == c but a != c (0, 1e-6 and 2e-6 on one axis) |
| `Coordinates.ApproxEqualBoundsDistance` | algorithmics/utils/coordinate.py:53 | coordinates that compare equal have squared distance at most 2·(1e-6)² |
| `Coordinates.CloseCoordinatesAreEqual` | algorithmics/utils/coordinate.py:53 | coordinates whose squared distance is at most (1e-6)² compare equal |
| `Coordinates.Neg` | algorithmics/utils/coordinate.py:55-56 | `-a` is the additive inverse: a plus it is the origin |
| `Coordinates.NegInvolution` | algorithmics/utils/coordinate.py:55-56 | negating twice gives the coordinate back |
| `Coordinates.NegIsAdditiveInverse` | algorithmics/utils/coordinate.py:55-61 | a + (-a) is the origin |
| `Coordinates.Add` | algorithmics/utils/coordinate.py:58-61 | a Coordinate operand gives the componentwise sum; any other operand raises TypeError with the source's message |
| `Coordinates.AddCommutative` | algorithmics/utils/coordinate.py:58-61 | a + b == b + a |
| `Coordinates.AddAssociative` | algorithmics/utils/coordinate.py:58-61 | `(a + b) + c == a + (b + c)` for the `+` operator on coordinates |
| `Coordinates.Sub` | algorithmics/utils/coordinate.py:63-66 | a Coordinate operand gives the componentwise difference; any other operand raises TypeError with the source's message |
| `Coordinates.SubIsAddNeg` | algorithmics/utils/coordinate.py:55-66 | a - b == a + (-b) |
| `Coordinates.AddThenSub` | algorithmics/utils/coordinate.py:58-66 | (a + b) - b == a |
| `Coordinates.TrueDiv` | algorithmics/utils/coordinate.py:68-71 | a non-zero number divides both axes; a non-number raises TypeError with the source's message; zero raises ZeroDivisionError |
| `Coordinates.Mul` | algorithmics/utils/coordinate.py:73-76 | a number scales both axes; any other operand raises TypeError with the source's message |
| `Coordinates.MulThenDiv` | algorithmics/utils/coordinate.py:68-76 | (a * k) / k == a for every k ≠ 0 |
| `Coordinates.OperatorsRejectWrongOperands` | algorithmics/utils/coordinate.py:58-76 | `+` and `-` with a number or other object, and `*` and `/` with a coordinate or other object, all raise |
| `Coordinates.ArithmeticExamples` | algorithmics/utils/coordinate.py:25-29 | -(5, 5) == (-5, -5) and (5, 5) + (10, 10) == (15, 15) |
| `Coordinates.SquaredDistance` | algorithmics/utils/coordinate.py:78-81 | the radicand of `distance_to` is never negative |
| `Coordinates.SquaredDistanceZero` | algorithmics/utils/coordinate.py:78-81 | the squared distance is zero exactly between identical coordinates |
| `Coordinates.IsDistance` | algorithmics/utils/coordinate.py:78-81 | a value of `distance_to` is zero exactly when the two coordinates are identical |
| `Coordinates.DistanceUnique` | algorithmics/utils/coordinate.py:78-81 | the non-negative root is unique, so the distance is determined by the two coordinates |
| `Coordinates.DistanceSymmetric` | algorithmics/utils/coordinate.py:78-81 | the distance from a to b equals the distance from b to a |
| `Coordinates.DistanceToSelf` | algorithmics/utils/coordinate.py:78-81 | the distance from a point to itself is exactly 0 |
| `Coordinates.DistanceIsNormOfDifference` | algorithmics/utils/coordinate.py:78-81 | the distance is the norm of a - b |
| `Coordinates.DistanceExample` | algorithmics/utils/coordinate.py:31-32 | from (5, 5) to (10, 10) the squared distance is 50 and the distance lies between 7.0710678 and 7.0710679 |
| `Navigator.KindOf` | algorithmics/navigator.py:22-24 | `isinstance` on the three threat classes: each kind is matched by its own class and by no other |
| `Navigator.OfKind` | algorithmics/navigator.py:22-24 | a filter keeps only threats of its kind, keeps every threat of that kind, and never grows the list |
| `Navigator.OfKindAppend` | algorithmics/navigator.py:22-24 | filtering distributes over concatenation, so the kept threats stay in their original order |
| `Navigator.OfKindSingleton` | algorithmics/navigator.py:22-24 | a one-threat list is kept whole or dropped whole, by its kind |
| `Navigator.OfKindMultiset` | algorithmics/navigator.py:22-24 | each threat of the kind is kept exactly as often as it occurs; no other threat is kept |
| `Navigator.PartitionCounts` | algorithmics/navigator.py:22-24 | each threat lands in exactly one of the three lists; their lengths sum to the input's length and their multisets add up to the input's |
| `Navigator.Partition` | algorithmics/navigator.py:22-24 | the three lists together hold exactly the input threats |
| `Navigator.PartitionOfConcatenation` | algorithmics/navigator.py:22-24 | partitioning posts + zones + radars, each list holding only its own kind, gives the three lists back unchanged |
| `Navigator.Navigate` | algorithmics/navigator.py:13-32 | the path has two points, starts at the source and ends at the target |
| `Navigator.NavigateIgnoresThreats` | algorithmics/navigator.py:32 | the result does not depend on the threats; with no threats it is `[source, target]` |
| `Navigator.NavigateEndpointsCompareEqual` | algorithmics/navigator.py:13 | under the coordinates' own `==`, the first point equals source and the last equals target |
| `App.LStrip` | algorithmics/app.py:45 | `lstrip('#')` removes every leading '#', not just one: the result is a suffix that does not start with '#' and only '#' was removed |
| `App.Slice` | algorithmics/app.py:48 | a slice clamps both bounds to the text's length, so it is never longer than `j - i` and may be shorter or empty |
| `App.ColorDigits` | algorithmics/app.py:45-47 | the text `_hex_to_rgb` slices never starts with '#' and never has three characters; it is the stripped colour, or the stripped colour twice |
| `App.ParseHex` | algorithmics/app.py:48 | `int(s, 16)` fails only with ValueError; the lemmas below state what it accepts: digits, digit groups, the `0x` prefix, whitespace and a minus sign in general, and every text of at most two characters exactly |
| `App.ParseHexOfDigitGroups` | algorithmics/app.py:48 | hex digits with single underscores between them read as the value of the digits, so `f_f` gives 255 |
| `App.ParseHexOfPrefixedGroups` | algorithmics/app.py:48 | after `0x`, `0X`, `0x_` or `0X_`, digit groups read the same, so `0xff` gives 255 |
| `App.ParseHexOfDigits` | algorithmics/app.py:48 | a non-empty run of hex digits of either case reads as its base-16 value |
| `App.ParseHexSkipsLeadingSpace` | algorithmics/app.py:48 | whitespace `int()` skips (ASCII tab to carriage return, space, and non-ASCII `str.isspace` characters) in front of the number never changes the outcome |
| `App.ParseHexSkipsTrailingSpace` | algorithmics/app.py:48 | the same whitespace after the number never changes the outcome |
| `App.ParseHexRejectsSeparator` | algorithmics/app.py:48 | the ASCII separators U+001C to U+001F are not whitespace to `int()`: one in front of a digit raises ValueError |
| `App.ParseHexNegative` | algorithmics/app.py:48 | a '-' in front of unsigned text negates its value, and the text still fails when it failed before |
| `App.ParseHexBound` | algorithmics/app.py:48 | a value read from n characters lies strictly between -16^n and 16^n |
| `App.ShortParseHex` | algorithmics/app.py:48 | every value `int()` reads from at most two characters lies between -15 and 255 |
| `App.ParseHexShort` | algorithmics/app.py:48 | on at most two characters, `int(t, 16)` accepts exactly one digit, two digits, a digit with whitespace before or after it, or a digit after '+' or '-'; the empty text, `0x`, a lone sign and the rest raise ValueError |
| `App.HexToRgb` | algorithmics/app.py:39-48 | succeeds iff the slices 0:2, 2:4 and 4:6 of the stripped (and, at three characters, doubled) colour are all accepted by `int(..., 16)`, and returns their values; success needs at least five characters, every channel lies between -15 and 255, and the only error is ValueError |
| `App.RgbOfDigits` | algorithmics/app.py:48 | the three channel reads succeed together, with their values, or the call raises ValueError |
| `App.HexToRgbReadsInt` | algorithmics/app.py:48 | the colour is valid iff all three `int(..., 16)` calls succeed, and its channels are their values |
| `App.HexToRgbStripsEveryHash` | algorithmics/app.py:45 | an extra leading '#' never changes the result |
| `App.HexToRgbSixDigits` | algorithmics/app.py:46-48 | for six hex digits, channel i is the value of digits 2i and 2i+1, and formatting the channels as two-digit hex gives the digits back in lower case |
| `App.HexToRgbFiveDigits` | algorithmics/app.py:46-48 | five hex digits also succeed, and the last channel is a single digit: `#abcde` gives (0xab, 0xcd, 0xe) |
| `App.HexToRgbRoundTrip` | algorithmics/app.py:39-48 | '#' followed by the two-digit hex of three channels below 256 parses back to those channels |
| `App.ParseHex2` | algorithmics/app.py:48 | parsing the two-digit hex of a channel below 256 gives the channel back |
| `App.Hex2OfPairValue` | algorithmics/app.py:48 | formatting the value of a parsed digit pair gives the pair back in lower case |
| `App.HexToRgbThreeDigits` | algorithmics/app.py:42-48 | a 3-digit body is repeated whole, so "#abc" reads "abcabc" and the channels are ab, ca and bc, not the digit-doubled colour the `#RGB` comment suggests |
| `App.HexToRgbThreeDigitExample` | algorithmics/app.py:46-48 | "#abc" gives (0xab, 0xca, 0xbc) |
| `App.HexToRgbSeparatedDigits` | algorithmics/app.py:48 | single digits after whitespace or a sign are channels: `# a b c` gives (10, 11, 12) and `#-a-b-c` gives (-10, -11, -12) |
| `App.HexToRgbIgnoresTail` | algorithmics/app.py:48 | when more than six characters remain after stripping, the result is that of the first six |
| `App.DigitRun` | algorithmics/app.py:133 | `\d+` takes the whole maximal run of digits at a position |
| `App.MatchesAt` | algorithmics/app.py:133 | a match needs at least fifteen characters from its start: `scenario_`, one digit and `.json` |
| `App.DecimalValue` | algorithmics/app.py:133 | `int()` of k decimal digits is below 10^k |
| `App.DecimalValueOfDigits` | algorithmics/app.py:133 | `int(str(n)) == n`: reading back the decimal digits of a number gives the number |
| `App.LastMatch` | algorithmics/app.py:133 | the greedy `.*` settles on the largest match start not above the bound, or reports that none exists |
| `App.ExtractScenarioNumber` | algorithmics/app.py:122-133 | succeeds iff some `scenario_<digits>.json` starts before any newline, and returns the number of the last such occurrence; otherwise AttributeError (`.group` on `None`) |
| `App.NoMatchNearEnd` | algorithmics/app.py:133 | no match can start within the last fourteen characters |
| `App.ExtractAt` | algorithmics/app.py:133 | when position p matches and no later one does, the result is the number at p |
| `App.ExtractScenarioNumberExample` | algorithmics/app.py:125-128 | "../resources/scenarios/scenario_5.json" gives 5 |
| `App.ExtractScenarioNumberGreedy` | algorithmics/app.py:133 | "scenario_1.json/scenario_2.json" gives 2, the last occurrence |
| `App.ExtractScenarioNumberNoDigits` | algorithmics/app.py:133 | "scenario_.json" does not match and raises AttributeError |
| `App.ExtractScenarioNumberOfFileName` | algorithmics/app.py:122-133 | a directory without newlines followed by `scenario_<n>.json` gives n, for every n |
| `App.MatchSurvivesSuffix` | algorithmics/app.py:133 | with no end anchor, a match and its digits survive any appended text |
| `App.PointText` | algorithmics/app.py:180 | a point renders as '(', its x text, ", ", its y text and ')', four characters longer than the two number texts |
| `App.Join` | algorithmics/app.py:181 | joining nothing gives the empty text; otherwise the length is the items' total plus one separator between each pair of neighbours |
| `App.UpdatePathText` | algorithmics/app.py:174-181 | the text is empty iff the path is; a non-empty text starts with '(' and ends with ')' |
| `App.UpdatePathTextSnoc` | algorithmics/app.py:180-181 | rendering one more point appends ", " and "(x, y)", or gives just "(x, y)" for an empty path |
| `App.UpdatePathTextItemCount` | algorithmics/app.py:180-181 | k points render as k items: with number texts free of '(', the text holds exactly k '(' |
| `App.JoinAppend` | algorithmics/app.py:181 | joining one more item appends the separator and the item |
| `App.ParseCoordinate` | algorithmics/app.py:27-34 | `Coordinate(c[0], c[1])` needs at least two entries (IndexError otherwise) and ignores later ones |
| `App.MapAll` | algorithmics/app.py:29-34 | a comprehension whose element may raise succeeds iff every element does, keeping length and order; otherwise it raises the first element's error |
| `App.ParsePost` | algorithmics/app.py:27-28 | an observation post is its centre's first two entries and its radius; a centre with fewer than two entries raises IndexError |
| `App.ParseZone` | algorithmics/app.py:29-30 | an asteroids zone keeps its boundary vertex for vertex, each as the first two entries of its list; any vertex list with fewer than two entries raises IndexError |
| `App.ParseRadar` | algorithmics/app.py:31-32 | a radar is its centre's first two entries and its radius; a centre with fewer than two entries raises IndexError |
| `App.ParseScenarioJson` | algorithmics/app.py:20-36 | succeeds iff every coordinate list has at least two entries, and then keeps the count and order of posts, zones, radars and each zone's boundary vertices, entry for entry |
| `App.ParsedFromUnique` | algorithmics/app.py:20-36 | a record determines its parsed scenario |
| `App.ParseScenarioJsonRoundTrip` | algorithmics/app.py:20-36 | writing a scenario out as a record with two-entry coordinate lists and parsing it gives it back |
| `App.ParsedThreatsPartition` | algorithmics/app.py:29-34 | each parsed list holds only its own kind, so navigate's filters hand posts, zones and radars back unchanged |

## Left out

- The path planner (visibility graph, shortest-path search, radar direction rule): the source does not implement it; `navigate` returns `[source, target]`.
- Floating point: coordinates and radii are reals, so these are not modelled:
  - rounding, and with it the exact doctest digits `7.0710678118654755`;
  - the `OverflowError` that `** 2` raises in `distance_to` when an axis difference exceeds about 1.3e154;
  - `inf` and `nan` coordinates.
- `Coordinates.AddThenSub`, `Coordinates.AddAssociative` and `Coordinates.MulThenDiv` hold for reals but not for Python floats. With a = (1, 0) and b = (1e16, 0), `(a + b) - b` is (0, 0).
- `Coordinates.DistanceUnique`: `distance_to` is not a Dafny function, because the square root cannot be defined here. Its value is characterised by `IsDistance` (the non-negative root of the squared distance), and the existence of that root is not proved.
- `Coordinate.__hash__` and `__repr__`: they depend on Python's float hashing and float formatting. `__hash__` is also inconsistent with the tolerant `__eq__`.
- Read-only properties and the `AttributeError` on assignment: a Dafny datatype is immutable, so there is nothing to model.
- `navigate` does not modify its input. This holds by construction here, since sequences are values.
- The `algorithmics/threats` classes duplicate the `enemy` ones and are not used by `navigate`. `algorithmics/enemy/threat.py` is not part of this model. Threats are the closed three-way datatype.
- `App.ParseHex`: Python's `int(s, 16)` also accepts non-ASCII Unicode decimal digits, such as Arabic-Indic digits. The model treats them as non-digits and reports `ValueError`. Signs, surrounding whitespace, the `0x` prefix and underscores are modelled.
- `App.HexToRgb`: a slice holding a non-ASCII Unicode decimal digit raises `ValueError` in the model, as in `App.ParseHex`, while Python reads it.
- `App.ExtractScenarioNumber`: `\d` is restricted to ASCII digits, while Python's `\d` also matches other Unicode decimal digits. No general regular-expression engine is modelled, only this pattern.
- `App.ExtractScenarioNumber`: the limit on decimal conversion in recent Python releases (3.11 and later, and the security releases of September 2022: 3.7.14, 3.8.14, 3.9.14 and 3.10.7) is not modelled. There, `int()` of more than 4300 digits raises ValueError. The model returns the number.
- `App.ExtractScenarioNumberOfFileName`: for the same reason, it promises n also for numbers of more than 4300 digits, where those releases raise ValueError.
- `App.UpdatePathText`: number-to-text conversion is the parameter `show`, not Python's float formatting.
- `App.ParseScenarioJson`: the input is a typed record, so a missing key (`KeyError`) or a non-numeric value is not modelled. Only too-short coordinate lists (`IndexError`) are.
- The Dash UI, with its layout, callbacks, figure building and server start. Also file and glob I/O, and `_generate_circle_scatter` (float trigonometry).
