# Split-flap identifier board — a Dafny model

The page of uuid.now shows an identifier on a board of 36 "split-flap" flips.
Each flip spins forward through a fixed 17-symbol alphabet (`0`-`9`, `A`-`F`,
`-`) until it shows its target character. A switch of the whole board starts
flip `i` after `i * 50` ms. A copy button reads back what the flips' overlays
show. Two producers make the identifiers: a time-based one (seconds since the
epoch in hexadecimal, then twelve random bytes) and a random version-4 one
(a template whose digits are replaced by random bits).

The model has four modules:

- `Alphabet` (`alphabet.dfy`): `charList`, `FLIP_COUNT`, and `indexOf` on
  the alphabet. The symbols are computed from character codes. A lemma proves
  that this closed form agrees with the literal list.
- `Flip` (`flip.dfy`): one flip as a value (`Cell`: value, top offset,
  overlay text). `StepCell` is one advance of `step`. `Iterate` gives `n`
  advances. `Distance` and `StepCount` count the advances of a chain.
  `Settle` is the flip once its chain has run to the end. The lemmas prove
  that chains land exactly on their target and that the step machine keeps
  its invariant.
- `FlipBoard` (`board.dfy`): the board as a class. It holds three length-36
  arrays (`value`, `top`, `overlay`). Its methods are `moveFlipDown`,
  `resetFlip`, one advance of `step`, `switchChar` (the step chain as a
  `while` loop), `switchToGuid` and the copy handler's read-back. The methods
  are proved against the functions of `Flip`. Lemmas about the whole-board
  functions cover read-back after a switch, idempotence, the zero-identifier
  scenarios and the timing of the steps.
- `GuidFormat` (`guid.dfy`): `getTimeBasedGuid` (the clock reading and the
  twelve bytes are parameters) and the `getRandomV4Guid` fallback (the random
  bytes are parameters). It covers hexadecimal writing, zero padding, the
  8-4-4-4-12 layout and the RFC 4122 version and variant digits.

Notes on what the code does:

- Step count from the empty value. The empty value counts as index -1. From
  there a chain takes `idx(t) + 1` advances, so the dash takes 17 (a full turn
  ending on `-`). The formula `(idx(t) - idx(v)) mod 17` holds only from a
  symbol. From the empty value it gives 0 for the dash.
- Read-back. It reads the overlays as they are at that moment. Every advance
  updates the overlay, so a read during a switch shows intermediate symbols.
  Nothing waits for the flips to settle.
- Timing. A flip's first advance runs as soon as its chain starts (`i * 50`).
  Each later advance comes 80 ms after the previous one. A chain of `n`
  advances therefore ends at `i * 50 + 80 * (n - 1)`, not at
  `i * 50 + 80 * n`.
- Overlapping switches. There is no cancellation. A switch started before the
  previous one has settled runs a second chain on the same flip. The model
  runs each flip's chain to the end before the next switch, which matches one
  switch with no overlap.

## Model

| member | source | states |
|---|---|---|
| `Alphabet.IndexOf` | src/Client/public/index.js:65 | the answer is -1 exactly for strings that are not one alphabet symbol (the empty value included); otherwise it is the position holding that symbol |
| `Alphabet.CharListIsAlphabet` | src/Client/public/index.js:5-9 | `charList` has 17 entries; entry `i` is the `i`-th of `0`-`9`, `A`-`F`, `-`; a character is in `charList` exactly when it is a hex upper-case digit or the dash |
| `Alphabet.IndexOfIsCharListIndexOf` | src/Client/public/index.js:65 | `IndexOf` is `charList.indexOf`: it returns the first position holding the character, and -1 exactly when no position holds it |
| `Flip.Forward` | src/Client/public/index.js:65-68 | a chain from the empty value takes between 1 and 17 advances; from a symbol it takes fewer than 17 |
| `Flip.StepCell` | src/Client/public/index.js:63-78 | one advance: the value becomes the `charList` entry after the current one (`""` counting as index -1), `0` after `-`; on that wrap top becomes 0, otherwise it drops by 35; the overlay shows the new value |
| `Flip.StepCount` | src/Client/public/index.js:53-60 | the advances `switchChar` performs: 0 when the value already equals the target (line 55) or the target is not in `charList` (line 60), otherwise the forward distance |
| `Flip.Settle` | src/Client/public/index.js:53-85 | the flip after `switchChar` has run its chain: `StepCount` advances of `StepCell` |
| `Flip.StepMoves` | src/Client/public/index.js:65-78 | an advance sets the value to the next `charList` entry (from `""` to `0`), and the overlay shows it; past `-` it wraps to `0` with top reset to 0; otherwise top drops by exactly 35 |
| `Flip.StepPreservesInv` | src/Client/public/index.js:39-50 | an advance keeps the flip invariant: value in `charList` or `""`, overlay equal to the value, top equal to -35 times the position (after a wrap) or one row lower (before the first wrap) |
| `Flip.IterateInv` | src/Client/public/index.js:62-84 | any number of advances keeps that invariant |
| `Flip.DistanceZero` | src/Client/public/index.js:55 | the distance to the target is zero exactly when the flip already shows it |
| `Flip.DistanceStep` | src/Client/public/index.js:65-74 | each advance away from the target brings the flip exactly one position closer |
| `Flip.DistanceAfter` | src/Client/public/index.js:62-84 | after `j` advances of a chain (up to the distance) the flip is `distance - j` positions from the target and still satisfies the invariant |
| `Flip.ChainAdvances` | src/Client/public/index.js:80-82 | a chain that has not reached its target has advances left, and its next advance keeps the invariant |
| `Flip.ChainStops` | src/Client/public/index.js:64 | a chain stops, on reaching its target, after exactly the distance |
| `Flip.LandsOnTarget` | src/Client/public/index.js:62-84 | after `Distance` advances the value and the overlay are the target; no earlier advance shows the target (no overshoot, intermediate symbols in between) |
| `Flip.StepCountZero` | src/Client/public/index.js:53-60 | `switchChar` performs no advance exactly when the flip already shows the target or the target is not in `charList` |
| `Flip.SettleShowsTarget` | src/Client/public/index.js:53-85 | after the chain ends, the value and overlay show a target in `charList`; a target outside `charList` leaves value, top and overlay unchanged; the invariant holds |
| `Flip.SettleIdempotent` | src/Client/public/index.js:55 | a second `switchChar` to the same target performs no advance and changes nothing |
| `Flip.FromInitial` | src/Client/public/index.js:39-50 | from a freshly built flip, `n` advances show symbol `(n-1) mod 17` in value and overlay; top is `-35n` up to the first wrap and `-35` times the advances since the last wrap afterwards |
| `Flip.IterateAdd` | src/Client/public/index.js:62-84 | advancing `a` times and then `b` times is advancing `a + b` times |
| `Flip.SettleFromInitial` | src/Client/public/index.js:53-85 | a flip advanced `n` times from its built state is, after `switchChar`, advanced `n + StepCount` times from it: the advances of successive switches add up |
| `Flip.SettledTop` | src/Client/public/index.js:39-50 | for a built flip advanced `n` times (by any earlier switches), after one more switch top is `-35m` up to the first wrap and `-35 ((m-1) mod 17)` after it, `m` being all advances so far |
| `FlipBoard.Normalize` | src/Client/public/index.js:90-92 | the targets are exactly 36: `guidStr[i]` for `i < len`, the dash beyond; characters after position 35 are dropped |
| `FlipBoard.TargetAt` | src/Client/public/index.js:92 | `guidStr[i] \|\| "-"`: the character at position `i`, or the dash past the end of the string |
| `FlipBoard.SwitchAll` | src/Client/public/index.js:88-97 | the board after every flip `i` has run its `switchChar` chain toward its target to the end |
| `FlipBoard.StepCounts` | src/Client/public/index.js:88-97 | per flip, the advances its chain performs during `switchToGuid` |
| `FlipBoard.ReadBackOf` | src/Client/public/index.js:154-159 | `finalStr`: the overlay texts concatenated in board order, an empty one read as `-` |
| `FlipBoard.ReadBackAt` | src/Client/public/index.js:154-159 | with overlays of at most one character, the read-back has one character per flip: the overlay, or `-` for an empty overlay |
| `FlipBoard.InitialReadBack` | src/Client/public/index.js:15-36 | the built board satisfies the flip invariant and reads back as 36 dashes |
| `FlipBoard.SwitchAllShows` | src/Client/public/index.js:88-97 | after a switch runs to the end, each flip with a `charList` target shows it in value and overlay; every other flip is unchanged; the invariant holds |
| `FlipBoard.SwitchReadBack` | src/Client/public/index.js:154-159 | after a switch runs to the end, the read-back is 36 characters: the normalised target where it is in `charList`, the previous reading elsewhere |
| `FlipBoard.SwitchIdempotent` | src/Client/public/index.js:88-97 | a repeated switch with the same string performs no advances on any flip and leaves the board as it is |
| `FlipBoard.SwitchAllFromInitial` | src/Client/public/index.js:88-97 | a board whose flip `k` is its built state advanced `a[k]` times is, after a switch, that state advanced `a[k]` plus the switch's count for `k` times; with `Flip.FromInitial` this fixes every top offset across successive switches |
| `FlipBoard.ZeroGuidFromInitial` | src/Client/public/index.js:169-173 | from the built board, the zero identifier takes 1 advance per `0` flip and 17 per dash flip |
| `FlipBoard.LastDigitFromZero` | src/Client/public/index.js:139-142 | from a board settled on the zero identifier, a target that differs only in its last `1` advances the last flip once and no other flip |
| `FlipBoard.StepTimes` | src/Client/public/index.js:81-84 | the `j`-th advance of a chain started at `s` runs at `s + 80j` (the first at once, the next 80 apart) |
| `FlipBoard.StartDelay` | src/Client/public/index.js:93-95 | flip `i`'s chain starts `i * 50` ms after the switch is called |
| `FlipBoard.SettleTime` | src/Client/public/index.js:81-95 | the time of the last advance of flip `i`'s chain of `n` advances |
| `FlipBoard.ScheduleOrder` | src/Client/public/index.js:93-95 | for a switch's per-flip counts (those `SwitchToGuid` returns), flip `i` settles at `i * 50 + 80 (n_i - 1)`; a flip further along starts later, and settles later unless its chain is shorter |
| `FlipBoard.Board.constructor` | src/Client/public/index.js:15-36 | the build loop: 36 flips with value `""`, top 0, overlay `-`, a valid board |
| `FlipBoard.Board.MoveFlipDown` | src/Client/public/index.js:39-45 | top of flip `k` drops by 35; no other top changes |
| `FlipBoard.Board.ResetFlip` | src/Client/public/index.js:47-50 | top of flip `k` becomes 0; no other top changes |
| `FlipBoard.Board.Step` | src/Client/public/index.js:63-78 | one advance on flip `k` as `StepCell` describes; no other flip changes |
| `FlipBoard.Board.SwitchChar` | src/Client/public/index.js:53-85 | the loop runs `StepCount` advances, leaving flip `k` as `Settle` describes and every other flip unchanged; the board stays valid |
| `FlipBoard.Board.SwitchToGuid` | src/Client/public/index.js:88-97 | every flip `i` ends as its chain toward `guidStr[i] \|\| "-"` leaves it; the per-flip advance counts are returned; the board stays valid |
| `FlipBoard.Board.ReadBack` | src/Client/public/index.js:154-159 | the loop builds the concatenation of the shown overlays; on a valid board it has 36 characters, one per flip |
| `GuidFormat.ToHex` | src/Client/public/index.js:114 | `n.toString(16)`: lower-case hexadecimal digits of `n`, most significant first, no leading zeros |
| `GuidFormat.PadStart` | src/Client/public/index.js:114 | `padStart(width, "0")`: the string with zeros prepended up to `width` characters, unchanged when already that long |
| `GuidFormat.ToUpper` | src/Client/public/index.js:130 | `toUpperCase` character by character (ASCII letters) |
| `GuidFormat.ToHexDigits` | src/Client/public/index.js:114 | `toString(16)` writes at least one digit, all of them lower-case hexadecimal |
| `GuidFormat.ToHexRoundTrip` | src/Client/public/index.js:114 | reading back the hexadecimal text gives the number |
| `GuidFormat.ToHexFits` | src/Client/public/index.js:114 | a number below `16^w` takes at most `w` digits |
| `GuidFormat.ToHexOverflows` | src/Client/public/index.js:114 | a number of at least `16^w` takes more than `w` digits |
| `GuidFormat.ParseHexZeros` | src/Client/public/index.js:114 | zero padding does not change the value the digits stand for |
| `GuidFormat.ParseHexUpper` | src/Client/public/index.js:130 | upper-casing does not change the value the digits stand for |
| `GuidFormat.PadStartDigits` | src/Client/public/index.js:114 | `padStart` gives length `max(len, width)`, keeps only hex digits and keeps the value |
| `GuidFormat.ByteHex` | src/Client/public/index.js:120 | each byte becomes exactly two zero-padded digits that read back as the byte |
| `GuidFormat.BytesHex` | src/Client/public/index.js:119-121 | the accumulated `rndHex` has two digits per byte |
| `GuidFormat.BytesHexAt` | src/Client/public/index.js:119-121 | byte `i` sits at digits `2i` and `2i+1` of `rndHex` |
| `GuidFormat.BytesHexDigits` | src/Client/public/index.js:119-121 | `rndHex` holds only lower-case hexadecimal digits |
| `GuidFormat.RandomHex` | src/Client/public/index.js:118-121 | the loop produces 24 hexadecimal digits, and each pair reads back as its byte |
| `GuidFormat.TimeGuidLowerShape` | src/Client/public/index.js:124-130 | 8 + 24 digits laid out as `secHex-part1-part2-part3-part4` have 36 characters, dashes at 8, 13, 18, 23 and digits elsewhere |
| `GuidFormat.TimeGuid` | src/Client/public/index.js:112-131 | `getTimeBasedGuid` for a given clock reading in seconds and twelve bytes: the padded seconds digits, then the 24 byte digits in groups 4-4-4-12, dash-separated and upper-cased |
| `GuidFormat.TimeGuidShape` | src/Client/public/index.js:112-131 | below `16^8` seconds, the time-based identifier has the 8-4-4-4-12 layout with upper-case digits, and its first 8 characters read back as the seconds |
| `GuidFormat.TimeGuidBytes` | src/Client/public/index.js:118-130 | below `16^8` seconds, the two digits at position `BytePos(i)` of the identifier (bytes 0-1 in the first group after the seconds, 2-3, 4-5, then 6-11) read back as random byte `i` |
| `GuidFormat.TimeGuidOverflow` | src/Client/public/index.js:114 | from `16^8` seconds on, the identifier is longer than 36 characters |
| `GuidFormat.GetTimeBasedGuid` | src/Client/public/index.js:112-131 | the method computes `TimeGuid(floor(now/1000), bytes)`; below `16^8` seconds it has the layout, its prefix reads back as the seconds and each byte reads back from its two digits |
| `GuidFormat.GuidShapeInAlphabet` | src/Client/public/index.js:5-9 | every character of a well-shaped identifier is in `charList` |
| `GuidFormat.TemplateAt` | src/Client/public/index.js:105 | the template is `10000000-1000-4000-8000-100000000000`, position by position |
| `GuidFormat.Substitute` | src/Client/public/index.js:106 | the replacement value `c ^ r & 15 >> c / 4` for template digit `c` and random byte `r`, with JavaScript precedence (`>>` before `&` before `^`) |
| `GuidFormat.ReplaceAll` | src/Client/public/index.js:105-107 | `replace(/[018]/g, ...)`: every `0`, `1` and `8` of the template becomes the lower-case digit of its substituted value, everything else is kept |
| `GuidFormat.V4Fallback` | src/Client/public/index.js:105-108 | the fallback identifier: the replaced template, upper-cased |
| `GuidFormat.SubstituteRange` | src/Client/public/index.js:106 | `c ^ r & 15 >> c/4` is a hex digit value; for `8` it is between 8 and 11 |
| `GuidFormat.ReplaceAllAt` | src/Client/public/index.js:105-107 | the replacement keeps the length; each `0`/`1`/`8` becomes the digit of its substituted value; every other character stays |
| `GuidFormat.VariantDigit` | src/Client/public/index.js:105-108 | the fallback's position 19 is one of `8`, `9`, `A`, `B` |
| `GuidFormat.V4FallbackShape` | src/Client/public/index.js:105-108 | the fallback has 36 characters, dashes at 8, 13, 18, 23, upper-case digits elsewhere, `4` at 14, one of `8 9 A B` at 19; positions not holding `0`, `1` or `8` keep the template character |
| `GuidFormat.RandomGuidFallbackShape` | src/Client/public/index.js:100-108 | without `crypto.randomUUID`, the identifier has the layout and every character is in `charList` |
| `GuidFormat.GetRandomV4Guid` | src/Client/public/index.js:100-109 | `crypto.randomUUID()` upper-cased when the platform has it, the template fallback otherwise |
| `GuidFormat.UpperHexIsSymbol` | src/Client/public/index.js:108 | upper-casing the `toString(16)` digit of `d` gives `charList[d]` |

## Left out

- DOM building and querying, CSS pixel strings and the footer year are left out. `dataset.top` is held as an integer, so the `parseInt(...) \|\| 0` parsing in `moveFlipDown` is not modelled.
- `setTimeout` scheduling is not modelled. Each flip's chain runs to the end, in board order. The logical times of the advances are given by `StepTimes` and `StartDelay`.
- Two chains interleaving on one flip are not modelled. This happens when `switchToGuid` is called again before a wave settles. The code has no cancellation, and the outcome depends on timer order.
- `crypto.randomUUID`, `crypto.getRandomValues` and `Date.now` are parameters. The fallback's random bytes are indexed by template position, not drawn in order. `Date.now()` is taken as a natural number.
- `GetRandomV4Guid`: when the platform provides `crypto.randomUUID`, nothing is promised about its output beyond upper-casing, because it is foreign code.
- `FlipBoard.TargetAt` indexes a Dafny string by character, where JavaScript's `guidStr[i]` indexes UTF-16 code units. The two agree on the ASCII identifiers every caller passes.
- `toUpperCase` is modelled for ASCII letters only. Only hexadecimal digits and dashes reach it here.
- The clipboard write, `alert`, `console.error` and the button wiring are I/O and UI glue.
- The unused `idx` computed in `switchChar` (two lines that never affect the result) is not modelled.
- `custom-animated-text.js`, `slide-up-element.js` and `sw.js` are not part of this model. They hold presentation timing, a CSS transition and a cache/fetch service worker.
