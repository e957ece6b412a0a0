# pokepy_SV bot bookkeeping, modelled in Dafny

This project models the bookkeeping of the screen-reading battle bot `Pokebot`
(pokepy/pokebot.py). Seen from the bot, a battle is a stream of readings taken
off the game screen. The bot turns them into state:

- the field-condition map of the battle and the volatile-condition map of each
  active creature, rewritten from the condition screen (`overwrite_condition`);
- the process buffer of entries read from battle text, to which an entry is
  appended only when no equal entry is present, plus the turn's action order collected from it;
- per-move PP and the opponent's recorded command, updated when a move is seen;
- the opponent's speed bracket `[min, max]`, narrowed whenever two moves of
  equal priority reveal who is faster;
- the command codes the bot decodes before it drives the controller;
- three small screen helpers: the ink bounding box of `rect_trim`, the stage
  pips of `read_rank`, and the small-to-large kana map of `to_jpn_upper`.

Modules follow the parts of the source:

- `commands.dfy` (`Commands`): decoding and encoding of command codes.
- `conditions.dfy` (`Conditions`): condition values and the specification of the
  overwrite.
- `creatures.dfy` (`Creatures`): the `Creature` class (moves, PP, conditions,
  speed bracket) and the speed-bracket laws.
- `events.dfy` (`Events`): buffer entries, the dedup rule, the notes attached to
  a move, and the action order.
- `bot.dfy` (`Bot`): the `Pokebot` class, whose methods update its fields in
  place as the source does.
- `screen.dfy` (`Screen`): the pixel and string helpers.

Where Python would raise on a value of the wrong shape, the model states the
shape the source relies on and requires it. `FieldLayout` says that outside the
global keys every field entry is a per-side list, except `wish`, which is a
number. `VolatileLayout` says that volatile entries are numbers. `Valid()`
includes both layouts, and every operation preserves them. A Python int `n` is
`Int(n)`. The complex number `n + e*1j`, which packs a count and a second
quantity, is `Complex(n, e)`. The list `[a, b]` is `PerSide(a, b)`. Ints and
complex numbers are kept apart because Python treats them differently: `max`
accepts an int but raises TypeError on a complex number (see "## Findings").

The set of global field keys is the first ten keys of the battle's condition
map (pokepy/pokebot.py:320). That map is defined in pokepy/pokemon.py, which is
not part of this model, so the set is a constructor parameter of `Pokebot`.

The code's comments at pokepy/pokebot.py:359-361 describe codes 10..13 as move
`cmd-4` and codes 20..25 as the `(cmd-10)`-th creature. The code itself uses
`cmd%10` and `cmd-20`, and the model follows the code.
`input_battle_command` also takes code 30 as a move, in slot 0, and since 30
is at least 10 it presses the terastal button too. The model keeps this.

## Model

| member | source | states |
|---|---|---|
| Commands.Decode | pokepy/pokebot.py:366-445 | a code is a move exactly when it is below 20 or is 30, a switch exactly when it is in 20..25, rejected otherwise; the move slot is `cmd%10`, terastal exactly when `cmd >= 10`, the switch target is `cmd-20` |
| Commands.EncodeMove | pokepy/pokebot.py:1201 | the recorded opponent code `ind + 10*terastal` lies in 0..19, has slot `ind` as its last digit and is at least 10 exactly when terastal |
| Commands.MoveRoundTrip | pokepy/pokebot.py:1201 | decoding the code recorded for slot `ind` and flag `tera` gives back that slot and flag |
| Commands.MoveCodeRoundTrip | pokepy/pokebot.py:366-392 | every code 0..19 is a move whose re-encoding is the code itself |
| Commands.ExtraMoveCodeDecodesAsTerastalMove | pokepy/pokebot.py:366-393 | code 30 is taken as the move in slot 0 with the terastal button pressed |
| Commands.CheckBeforeCursor | pokepy/pokebot.py:366-415 | a move code raises IndexError exactly when its slot is past the PP list, and otherwise is refused exactly when its slot shows 0 PP; a switch code is never refused and raises IndexError exactly when its target is past the selected creatures; a rejected code is refused |
| Conditions.SetSide | pokepy/pokebot.py:325 | writing a per-side entry sets the player's slot and keeps the other side's slot |
| Conditions.Reset | pokepy/pokebot.py:308-315 | an unshown entry becomes `[0, 0]` if it is a per-side list and the int 0 otherwise |
| Conditions.Countdown | pokepy/pokebot.py:322-323 | a countdown of an int or complex entry yields a complex number whose real part drops by one but not below 1 and whose imaginary part is kept |
| Conditions.Incremented | pokepy/pokebot.py:329-330 | `+= 1` raises the real part by one, keeps the imaginary part, and keeps an int an int |
| Conditions.FieldEntry | pokepy/pokebot.py:319-325 | a shown global entry becomes the shown int; a shown wish counts down to a complex number with floor 1; any other shown field entry changes only at the player's slot |
| Conditions.VolatileEntry | pokepy/pokebot.py:328-334 | bad poison goes up by one whatever is shown; confusion and bind count down with floor 1, keeping the imaginary part; other entries become the shown int |
| Conditions.WithScreens | pokepy/pokebot.py:303-306 | a shown aurora veil is removed and reflector and light wall both take its value; without a veil the observation is unchanged, and unrelated entries are kept |
| Conditions.FieldAfter | pokepy/pokebot.py:308-325 | the key set is kept; unshown entries are reset; shown global entries are overwritten verbatim; shown per-side entries change only at the player's slot; a shown wish counts down with floor 1; the layout is preserved |
| Conditions.VolatileAfter | pokepy/pokebot.py:313-334 | the key set is kept; unshown entries become 0; shown keys that are field keys are left alone; bad poison goes up by exactly 1; confusion and bind count down with floor 1 and keep their imaginary part; other shown entries take the shown value |
| Conditions.Decremented | pokepy/pokebot.py:332 | `v - 1` lowers the real part by one, keeps the imaginary part, and keeps an int an int and a complex number complex |
| Conditions.MaxWithOne | pokepy/pokebot.py:332 | `max(1, x)` raises TypeError exactly when x is complex, and otherwise is the larger of 1 and x |
| Conditions.CountdownAsWritten | pokepy/pokebot.py:332 | the countdown as written, when it succeeds, yields a complex number that keeps the entry's imaginary part |
| Conditions.CountdownAsWrittenOnlyForInts | pokepy/pokebot.py:323-332 | the countdown as written equals the corrected countdown on an int and raises TypeError on a complex number |
| Conditions.VolatileEntryAsWritten | pokepy/pokebot.py:328-334 | a shown volatile entry rewritten as written never comes out as a per-side list, and only confusion and bind can raise |
| Conditions.VolatileAfterAsWritten | pokepy/pokebot.py:313-334 | the as-written rewrite, when it succeeds, keeps the key set and the layout of the creature's map |
| Conditions.AsWrittenRaisesExactlyOnComplex | pokepy/pokebot.py:328-334 | the as-written rewrite raises TypeError exactly when a shown confusion or bind entry of the creature, not a field key, is already complex, and otherwise equals `VolatileAfter` |
| Conditions.AsWrittenFailsOnSecondCountdown | pokepy/pokebot.py:331-332 | when the as-written rewrite counts down a confusion or bind entry, the same screen on the next turn raises TypeError |
| Conditions.ConfusionShownTwiceRaises | pokepy/pokebot.py:331-332 | confusion held as the int 3 and shown twice becomes `2+0j` after the first rewrite, and the second rewrite raises TypeError |
| Conditions.CountdownOverTurns | pokepy/pokebot.py:331-332 | under the corrected rewrite, a confusion or bind entry shown t turns running has real part `max(1, n - t)` and keeps its imaginary part |
| Conditions.AuroraVeilSetsBothScreens | pokepy/pokebot.py:303-325 | after a shown aurora veil, both screens carry its value at the player's slot and keep the other side's slot |
| Conditions.RepeatedObservationStable | pokepy/pokebot.py:317-325 | applying the same observation again leaves every global and per-side entry as it was after the first time |
| Creatures.PpCost | pokepy/pokebot.py:1197 | one use costs 2 PP when the other active creature has Pressure and 1 PP otherwise |
| Creatures.FirstIndex | pokepy/pokebot.py:1196 | the slot found is an occurrence of the move and no earlier slot holds it |
| Creatures.Narrowed | pokepy/pokebot.py:1248-1252 | the bracket never widens; if the opponent moved first only the lower end moves, to at least the bound; otherwise only the upper end moves, to at most the bound; an end that moves lands on the bound |
| Creatures.NarrowingSound | pokepy/pokebot.py:1248-1252 | a true speed inside the bracket that agrees with every observed turn order stays inside the bracket after all of them |
| Creatures.NarrowingNeverWidens | pokepy/pokebot.py:1248-1252 | after any sequence of observations the bracket lies within the starting one |
| Creatures.NarrowingCommutes | pokepy/pokebot.py:1248-1252 | two observations give the same bracket in either order |
| Creatures.Creature.constructor | pokepy/pokebot.py:546 | a newly seen creature's speed bracket starts at `[0, 999]` |
| Creatures.Creature.SpendPp | pokepy/pokebot.py:1195-1201 | a known move's PP drops by 2 against Pressure and by 1 otherwise, every other PP entry is unchanged, and the slot's code with the terastal flag is returned; an unknown move changes nothing |
| Creatures.Creature.NarrowSpeed | pokepy/pokebot.py:1249-1252 | the bracket becomes its narrowing by the observation |
| Events.WithEvent | pokepy/pokebot.py:1339-1344 | the entry is in the result; the buffer is unchanged if an equal entry was present, else the entry is appended |
| Events.WithEventIdempotent | pokepy/pokebot.py:1339-1344 | recording an entry twice equals recording it once |
| Events.WithEventKeepsDistinct | pokepy/pokebot.py:1484-1490 | a buffer without duplicates keeps that property under the dedup rule |
| Events.Marked | pokepy/pokebot.py:1384-1404 | a failure note clears was-valid, a miss note clears hit, a critical note sets critical, and nothing else in the move entry changes |
| Events.PlainMove | pokepy/pokebot.py:1178-1185 | for the first two entries, an entry is plain exactly when it is a move; from the third entry on, exactly when it is a move and does not follow a same-player move of the "other move" category |
| Events.OrderUpTo | pokepy/pokebot.py:1178-1205 | the action order of the first n entries holds only move entries and is no longer than n |
| Events.OrderWellFormed | pokepy/pokebot.py:1203-1205 | the action order holds only entries of the buffer, and neighbours belong to different players |
| Events.OrderGrows | pokepy/pokebot.py:1203-1205 | the order of a shorter buffer prefix is a prefix of the order of a longer one |
| Events.OrderFollowsBuffer | pokepy/pokebot.py:1178-1205 | there are strictly increasing buffer positions, one per recorded action, each holding a plain move equal to that action, so the order keeps the buffer's order |
| Events.RecordedWhenPlayerChanges | pokepy/pokebot.py:1203-1205 | a plain move whose player differs from the last recorded action's is recorded right after the actions recorded before it |
| Events.OrderEmptyIffNoPlainMove | pokepy/pokebot.py:1178-1205 | the order is empty exactly when the buffer prefix holds no plain move |
| Events.FirstPlainMoveLeads | pokepy/pokebot.py:1203-1205 | the first recorded action is the buffer's first plain move, which is the first mover the speed comparison at line 1234 relies on |
| Events.TwoActionsBothPlayers | pokepy/pokebot.py:1235-1238 | an action order of two entries holds one action of each player, so looking up the opponent's position succeeds |
| Events.CollectMoveOrder | pokepy/pokebot.py:1178-1205 | the loop yields the action order of the whole buffer, with the third-entry-on test for a move called by another move kept as written; the result alternates players and consists of move entries of the buffer |
| Bot.Pokebot.constructor | pokepy/pokebot.py:243 | the process buffer starts empty |
| Bot.Pokebot.OverwriteCondition | pokepy/pokebot.py:299-334 | the field map becomes `FieldAfter` and the creature's map becomes `VolatileAfter` of the observation with the veil split into both screens; both layouts are kept |
| Bot.Pokebot.ResetUnshown | pokepy/pokebot.py:308-315 | every unshown field entry is reset and every unshown volatile entry becomes 0; shown entries and key sets are unchanged |
| Bot.Pokebot.ApplyShown | pokepy/pokebot.py:317-334 | each shown key updates its field entry if it is a field key, else its volatile entry; nothing else changes |
| Bot.Pokebot.RecordAbilityText | pokepy/pokebot.py:1339-1344 | the result is true exactly when no equal entry was buffered, and the buffer then gains the entry at its end and otherwise stays the same |
| Bot.Pokebot.RecordBottomText | pokepy/pokebot.py:1484-1490 | as above, but an entry with no key besides player and display name is never appended |
| Bot.Pokebot.MarkLastMove | pokepy/pokebot.py:1384-1405 | the note applies exactly when the last entry is a move; only that entry changes, and only as the note says |
| Bot.Pokebot.RecordMoveUse | pokepy/pokebot.py:1187-1201 | the PP of a used known move drops by its cost and nothing else in PP changes; for the opponent the recorded command becomes the move's code; the own command slot is untouched |
| Bot.Pokebot.BracketOpponentSpeed | pokepy/pokebot.py:1232-1252 | the bracket narrows only when exactly two actions of equal priority were seen, raising the lower end if the opponent moved first and lowering the upper end otherwise; in every other case it is unchanged |
| Screen.Slice | pokepy/pokebot.py:35 | slicing is the plain subsequence when the bounds fit, the suffix from `lo` when only `hi` is past the end, and empty when `lo` is at or past `hi` or the end |
| Screen.Crop | pokepy/pokebot.py:35 | the crop has the box's rows that the image has, each cut to the box's columns that the row has |
| Screen.RectTrim | pokepy/pokebot.py:25-35 | the box holds the image centre and every ink pixel, each edge is the centre's row or column or touches an ink pixel, and the result is the image cut to the box |
| Screen.ScanRow | pokepy/pokebot.py:30-34 | after one row the box holds every ink pixel of that row and earlier rows, and stays anchored |
| Screen.Widened | pokepy/pokebot.py:31-34 | the min/max update yields a box that holds the new pixel and everything the old box held |
| Screen.WidenedAnchored | pokepy/pokebot.py:31-34 | widening to an ink pixel keeps every edge at the centre or at an ink pixel |
| Screen.TrimKeepsInk | pokepy/pokebot.py:35 | every ink pixel reappears in the cropped image at its offset from the box corner |
| Screen.Classify | pokepy/pokebot.py:843-848 | a pip is raised exactly when its upper green sample is above 190, and lowered exactly when it is not raised and its lower green sample is below 80 |
| Screen.PipCount | pokepy/pokebot.py:841-848 | a row's stage lies between minus and plus the number of pips |
| Screen.GreenRunCount | pokepy/pokebot.py:841-848 | green pips up to a blank one at position k give stage +k |
| Screen.PipCountStopsAtBlank | pokepy/pokebot.py:846-848 | pips after the first blank one have no effect |
| Screen.PipCountTally | pokepy/pokebot.py:841-848 | a row's stage is its number of raised pips minus its number of lowered pips before the first blank one |
| Screen.ReadRank | pokepy/pokebot.py:831-852 | seven stages, each the pip count of its row of six probes, hence each in -6..6 |
| Screen.ToJpnUpper | pokepy/pokebot.py:67-69 | the length is kept and each character is mapped through the small-to-large kana table |
| Screen.NoSmallKanaLeft | pokepy/pokebot.py:67-69 | no small kana remains after the conversion |
| Screen.ToJpnUpperIdempotent | pokepy/pokebot.py:67-69 | converting twice equals converting once |

## Findings

| source | as written | input that shows it | evidently intended | confidence | as-written member | corrected member |
|---|---|---|---|---|---|---|
| pokepy/pokebot.py:332 | `max(1, p.condition[s] - 1) + 1j * p.condition[s].imag` compares the whole entry with 1; the result is always complex, and `max` raises TypeError on a complex number | a creature whose `confusion` entry is the int 3, with the condition screen showing confusion on two turns running: the first rewrite stores `(2+0j)`, the second raises TypeError | `max(1, p.condition[s].real - 1) + 1j * p.condition[s].imag`, as the wish countdown at line 323 reads it, so the count keeps going down to 1 | high, not executed | Conditions.CountdownAsWritten, Conditions.VolatileAfterAsWritten, Conditions.AsWrittenRaisesExactlyOnComplex, Conditions.AsWrittenFailsOnSecondCountdown, Conditions.ConfusionShownTwiceRaises | Conditions.VolatileEntry, Conditions.VolatileAfter, Conditions.CountdownOverTurns |

## Left out

- Screen capture, template matching, thresholding and OCR (`capture`, `OCR`, `is_*_window`, the `read_*` image readers): these take their input from the camera and from vision libraries. The model starts from the values they return: an observation map, pixel grids, pip probes and buffer entries.
- Controller input (`press_button`) and every cursor-driving loop in `input_selection_command`, `input_battle_command` and `input_change_command`: that is hardware plumbing. `Commands.CheckBeforeCursor` models only the tests made before the move cursor moves or the switch target is named. Moving the battle cursor, pressing A and re-reading the PP list (pokepy/pokebot.py:368-383) run before those tests and are left out; the re-read PP list is an input.
- `game_time`, `thinking_time` and the latency measurements are left out: they read the wall clock.
- The fuzzy matching of `most_similar_element` and the text parsing in `read_ability_text` and `read_bottom_text` are left out: they call Levenshtein and jaconv. The model takes the parsed entry, or the kind of note, as its input.
- The other branches of `read_buffer` are left out: ability, item, lost item, type, boost, substitute, and the effects of individual moves. They set creature fields of the battle engine, which is defined in pokepy/pokemon.py.
- The replacement of the process buffer by the carried-over entries (pokepy/pokebot.py:1230) and its clearing between matches (pokepy/pokebot.py:1375) are not modelled.
- pokepy/pokemon.py is not part of this model. This leaves out `Pokemon.add_move`, which the source calls before the PP update for an opponent's move not yet seen (pokepy/pokebot.py:1190-1191). It also leaves out `Pokemon.find`, and the damage, lethal and turn engine that the ex*.py scripts drive.
- Bot.Pokebot.RecordMoveUse: for an opponent's move not yet in its move list, the source first adds the move (`add_move`, pokepy/pokebot.py:1190-1191) and then decrements its PP and records its code in `command[1]`. The model leaves PP and `command` unchanged for such a move.
- Creatures.Creature.SpendPp: an unknown move changes nothing. In the source the opponent's unknown move has already been added by `add_move`, which is not part of this model.
- JSON dumps, party files and log files (`dump`, `dump_party`, `load_party`, `save_party`, the logging in `main_loop`) are left out: they are persistence.
- Commands.CheckBeforeCursor: the number of selected creatures and the re-read PP list are inputs; in the source they come from `self.selected[0]` and `read_pp`.
- Conditions.VolatileAfter: models the corrected countdown of pokepy/pokebot.py:332. As written, the line raises TypeError once a confusion or bind entry is complex, which it is after its first countdown. `Conditions.VolatileAfterAsWritten` states that, and "## Findings" records it.
- Bot.Pokebot.OverwriteCondition: updates the state by the corrected countdown, as `Conditions.VolatileAfter` does. The source raises TypeError at pokepy/pokebot.py:332 on the second consecutive confusion or bind rewrite, with the field map and the earlier volatile keys already rewritten.
- Bot.Pokebot.ApplyShown: uses the corrected countdown for confusion and bind, as above.
- Conditions.VolatileAfterAsWritten: yields only the outcome. When the source raises at pokepy/pokebot.py:332, the field map and the volatile keys it visited earlier have already been rewritten; that partial state is not modelled.
- Bot.Pokebot.RecordMoveUse: the source runs the move branch of `read_buffer` twice for the own side, once on the `observed[0]` copy and once on the `selected[0]` copy (the loop at pokepy/pokebot.py:1143), so both copies get the PP decrement. The model updates one creature per call.
- Bot.Pokebot.RecordMoveUse: the move branch also records `last_pp_move` and `last_used_move` (pokepy/pokebot.py:1183, 1187) and sets `was_valid` (pokepy/pokebot.py:1207); these fields are not modelled.
- Events.CollectMoveOrder: every buffered entry is assumed to belong to a creature that `Pokemon.find` locates. In the source an entry whose creature is not found is carried over and does not join the action order.
- Bot.Pokebot.BracketOpponentSpeed: the opponent's creature is a parameter. The source looks it up with `Pokemon.find` by display name (pokepy/pokebot.py:1243) and raises AttributeError if the lookup returns None.
- Bot.Pokebot.BracketOpponentSpeed: the bound is an integer input. The source computes it as `int(own speed / (eff_speed / speed))` in floating point (pokepy/pokebot.py:1241-1246), and that ratio is not modelled.
- Events.WithEventKeepsDistinct: `MarkLastMove` can turn the last entry into a copy of an earlier one, so "no duplicates" is proved for the dedup rule alone and is not part of the buffer's invariant.
- Move priority (`move_speed`) is an integer here; in the source it may carry a fractional part. Only equality between two priorities is used.
- PP is an unbounded integer and can become negative, as in the source: `p.pp[ind] -= 2` has no floor.
- The pixel coordinates that `read_rank` and `rect_trim`'s caller sample are abstracted. A pip probe holds the two green-channel readings taken 2 pixels above and 2 pixels below a pip position.
