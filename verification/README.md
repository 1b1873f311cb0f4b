# Reaction tester: verified model of the game session, highscores and name entry

The program is a reaction-time game on a Raspberry Pi with a touch screen.
It comes in two files:
- `game2.py` is the game: levels, the timed session, the highscore files and
  the on-screen keyboard for names;
- `game.py` is a set of additions to that game. It brings `maybe_add_highscore`
  with `MAX_HIGHSCORES`, a name prompt that reads a physical keyboard
  (`prompt_for_name`), a highscore screen, and a replacement `menu()` with a
  highscore button. It relies on the game's screen, fonts and `game_loop`.

A session lasts one minute. One of two LEDs lights at scheduled moments. The
player presses that LED's button before it goes out:
- the right button scores +1;
- the other button scores -1;
- an LED that times out scores nothing and only schedules the next one.

The on-time depends on the level (1000 ms down to 300 ms). At the end, a
score that qualifies enters the level's table of the ten best. Before that,
the player enters a name, on the on-screen keyboard or at the keyboard prompt.

The model has one module per concern:

- `Levels` (`levels.dfy`): the per-level on-time table and its default.
- `Slices` (`slices.dfy`): the two Python slices the program uses, `s[:n]` and `s[:-1]`.
- `Ranking` (`ranking.dfy`): tables as values.
  - `SortDesc` is the stable descending sort. It is proved sorted, a permutation and stable. It is also proved the only arrangement that is all three.
  - `AddScore` is append, sort, keep ten. Lemmas relate it to a single insertion and to the qualification test `Qualifies`.
- `Highscores` (`highscores.dfy`): the per-level score files, as a class holding a `map` from level to table that the program reads and rewrites. It provides `add_score` and `maybe_add_highscore`.
- `Session` (`session.dfy`): one game session.
  - A pure state machine: `Step` is one loop iteration, `Run` a sequence of them.
  - Lemmas give the scheduling and scoring rules.
  - The class `ReactionGame` holds the loop's variables and a `lit` array of LED outputs. Its `Tick` and `Play` are proved to follow `Step` and `Run`, and to keep the LED array equal to the state (at most one LED lit, none after the end).
- `OnScreenKeyboard` (`onscreen_keyboard.dfy`): `get_name_input`. It is a step function, its fold, and a loop proved equal to the fold.
- `KeyboardPrompt` (`keyboard_prompt.dfy`): `prompt_for_name`. Events come in frames (one `pygame.event.get()` batch per loop iteration), so keys after Return in the same frame are still handled, as in the code.
- `Wrappers` (`wrappers.dfy`): `Option`.

Time is the integer millisecond clock of `pygame.time.get_ticks()`. The
session-end test `(now - start) / 1000 >= 60` is computed on integers as
`now - start >= 60000`; `SessionOver` states that the two agree, with the
division taken exactly.

## Model

| member | source | states |
|---|---|---|
| Levels.LedTime | game2.py:186 | Every level gets an on-time between 300 and 1000 ms; a level outside 1–5 gets the 1000 ms default |
| Levels.LedTimeTable | game2.py:45-51 | Levels 1, 2, 3, 4, 5 light the LED for 1000, 900, 800, 500, 300 ms |
| Levels.HigherLevelIsFaster | game2.py:45-51 | Among levels 1–5 a higher level never has a longer on-time |
| Slices.Truncate | game2.py:75 | `s[:n]` has min(len(s), n) elements and is a prefix of `s` |
| Slices.DropLast | game2.py:143 | `s[:-1]` leaves an empty sequence empty and otherwise removes exactly the last element |
| Ranking.InsertPos | game2.py:75 | The slot a stable descending sort gives a new score: everything before it scores at least as much, the entry at it scores less |
| Ranking.InsertPosSplits | game2.py:75 | In a sorted table, an entry lies before the slot exactly when it scores at least the new score |
| Ranking.Insert | game2.py:75 | Inserting at the slot adds exactly the new entry (length + 1, same multiset plus the entry) |
| Ranking.InsertKeepsSorted | game2.py:75 | Inserting at the slot keeps a table sorted highest first |
| Ranking.SortDesc | game2.py:75 | `sorted(..., key=score, reverse=True)` returns a permutation of its input, sorted highest score first |
| Ranking.SortDescStable | game2.py:75 | The sort is stable: for every score, the entries with that score keep their input order |
| Ranking.StableSortUnique | game2.py:75 | Two sorted sequences that agree on the order within every score are equal |
| Ranking.SortDescIsStableSort | game2.py:75 | `SortDesc(s)` is a stable descending sort of `s` |
| Ranking.StableSortIsSortDesc | game2.py:75 | Any stable descending sort of `s` is `SortDesc(s)`, so the model fixes the sort result completely |
| Ranking.SortDescOfSorted | game.py:31 | Sorting an already sorted table leaves it unchanged |
| Ranking.AddScore | game2.py:72-76 | Appending, sorting and keeping ten gives a sorted table of at most 10 entries, one longer when there was room and 10 otherwise, made only of the old entries and the new one |
| Ranking.AddScoreToSorted | game.py:30-32 | On a sorted table, adding a score is one insertion at the slot followed by the cut to 10 |
| Ranking.NewEntryRanksBelowTies | game2.py:75 | A new score goes after every old entry with an equal or higher score and before every lower one; the old entries keep their order |
| Ranking.Qualifies | game.py:28 | On a sorted table the test passes exactly when the table has fewer than 10 entries or the score beats some entry of it (the last entry is the lowest); game2.py:251 makes the same test |
| Ranking.QualifyingEntrySurvives | game2.py:251 | On a stored table, the qualification test passes exactly when the new entry's slot is among the first 10, and then the new entry is in the saved table at that slot |
| Ranking.NonQualifyingLeavesTable | game.py:28 | A score failing the test would not change a stored table if it were added anyway |
| Ranking.FullTableDropsLast | game.py:28-32 | A qualifying score entering a full table displaces exactly the previous last entry |
| Highscores.HighscoreStore.Load | game.py:14-19 | A level without a saved table reads as the empty table; every saved table is sorted and at most 10 long |
| Highscores.HighscoreStore.constructor | game.py:10-12 | A freshly created `wyniki` directory holds no level files: every level reads as the empty table |
| Highscores.HighscoreStore.AddScore | game2.py:72-76 | Saves `AddScore` of the level's table under that level, leaves every other level as it was, and keeps every table sorted and at most 10 long |
| Highscores.HighscoreStore.MaybeAddHighscore | game.py:26-33 | Reports whether the score qualifies; if it does, saves the table with the named entry added; otherwise the store is unchanged (the end of game2's `game_loop`, lines 250-253, does the same with `add_score`) |
| Session.Start | game2.py:182-192 | Play begins with score 0, no stop request, nothing lit, and the first LED due one on-time after the start |
| Session.SessionOver | game2.py:194-198 | The loop is left exactly when a stop was requested or the elapsed time in seconds, `(now - start) / 1000`, reaches 60 |
| Session.Finish | game2.py:241-242 | Leaving the loop keeps the score and writes every LED output low |
| Session.Arm | game2.py:205-209 | When nothing is lit and the next LED is due, the chosen LED is lit with its start set to now; a lit LED, or a dark tick before the due time, leaves the state exactly as it was; the score, the due time `next_led_time` and the stop request are never changed |
| Session.Expire | game2.py:211-214 | A lit LED goes out exactly when its age reaches the on-time, and the next is then due an on-time later; a dark LED or a lit one that has not expired leaves the state exactly as it was; the score, the current channel, its start time and the stop request are never changed |
| Session.ScoreButtons | game2.py:216-225 | Buttons are read only while an LED is lit: a dark reading changes nothing, a reading can only switch the LED off, and it moves the score by at most one point |
| Session.ConfigFor | game2.py:186-192 | A session's on-time is `LedTime(level)`, the level table's entry, and is positive; the start time is the clock reading given |
| Session.Lit | game2.py:207-224 | The LED outputs: at most one is lit, the current LED is lit while `led_on`, and none otherwise |
| Session.PressButtons | game2.py:216-225 | The button loop never changes the current LED, its start or the stop flag; it only switches the LED off; the score moves by at most one per button |
| Session.PressTwoButtons | game2.py:216-225 | With two buttons: the lit LED's button scores +1, the other -1, both count when both are pressed, and any press switches the LED off and schedules the next an on-time later |
| Session.Step | game2.py:194-242 | One iteration keeps the invariant (a lit LED is a real channel, nothing lit after the end) and ends the session exactly when a stop was requested or the minute is over; a tick that does not end it leaves a stop requested exactly when it brought a window close or STOP touch |
| Session.Run | game2.py:194-242 | The loop over any sequence of ticks keeps the invariant |
| Session.SessionEndsWhenOver | game2.py:194-198 | Once a stop is requested or 60000 ms have passed, the tick only leaves the loop: the score is frozen and every LED is off |
| Session.StopEndsNextTick | game2.py:231-236 | A stop (window closed or STOP touched) during a tick ends the session at the next loop test, with the score unchanged |
| Session.LitLedOrigin | game2.py:205-225 | An LED lit after a tick was either lit before (same channel, same start), or none was lit, the next was due, and it is the chosen channel lit now |
| Session.ArmsWhenDue | game2.py:205-209 | When nothing is lit and the next LED is due, the chosen LED lights at this tick and stays lit unless a button is pressed |
| Session.ExpiryScoresNothing | game2.py:211-214 | A lit LED whose age reaches the on-time goes out, the next one is scheduled an on-time later, and the tick scores nothing |
| Session.ButtonsScoreAgainstLitLed | game2.py:216-225 | While an LED is lit at button time: +1 for its own button, -1 for the other, and any press switches it off and schedules the next |
| Session.DarkPressesIgnored | game2.py:216 | Presses while no LED is lit never change the score |
| Session.ScoreStepBounded | game2.py:216-225 | One tick moves the score by at most one point |
| Session.RunScoreBounded | game2.py:194-242 | Over n ticks the score moves by at most n points either way |
| Session.RunEndsByDeadline | game2.py:196-198 | Any run that reaches a tick at or after the minute ends with the session over and every LED off |
| Session.RunLastsTheMinute | game2.py:194-198 | A run of ticks before the minute, none of which brings a window close or STOP touch, neither ends the session nor requests a stop |
| Session.QuickHitExample | game2.py:186-225 | Level 1, play starting at -1000 ms: the first LED lights on channel 0 at 0 ms, and its button pressed at 400 ms scores 1, switches the LED off and schedules the next for 1400 ms |
| Session.ReactionGame.constructor | game2.py:180-192 | A new session has score 0, no stop request, nothing lit, the first LED due one on-time after the start, and all LED outputs low |
| Session.ReactionGame.Tick | game2.py:194-242 | One loop iteration changes the fields and the LED outputs exactly as `Step`, keeping the LED array equal to the state |
| Session.ReactionGame.SwitchOffAndLeave | game2.py:241-242 | Writes every LED output low and marks the loop as left, as `Finish` gives |
| Session.ReactionGame.ArmIfDue | game2.py:205-209 | Lights the chosen LED when none is lit and one is due, as `Arm` gives, with the outputs in step |
| Session.ReactionGame.ExpireIfDue | game2.py:211-214 | Switches off an LED whose on-time has run out and schedules the next, as `Expire` gives, with the outputs in step |
| Session.ReactionGame.ReadButtons | game2.py:216-225 | The `for` loop over the buttons ends in the state `PressButtons` gives, with the outputs in step |
| Session.ReactionGame.Play | game2.py:194-242 | The loop over a sequence of ticks ends in the state `Run` gives, with the LED array in step |
| OnScreenKeyboard.PressKey | game2.py:141-147 | `<` removes the last character (none if empty); `OK` finishes with the prefix of the name of length min(len(name), 10); any other label is appended |
| OnScreenKeyboard.EraseUndoesKey | game2.py:142-147 | Tapping `<` right after a letter or `.` key restores the name |
| OnScreenKeyboard.Run | game2.py:115-147 | A tap sequence finishes exactly when it contains `OK` |
| OnScreenKeyboard.SubmittedNameFits | game2.py:145 | Whatever was typed, the returned name has at most 10 characters |
| OnScreenKeyboard.ErasingShortens | game2.py:142-143 | n taps on `<` remove the last n characters, or all of them |
| OnScreenKeyboard.RunThen | game2.py:115-147 | Taps that leave the name still being edited are simply followed by the next taps |
| OnScreenKeyboard.SpellTypes | game2.py:146-147 | Tapping the characters of any word without `<`, one label each, types exactly that word after the name |
| OnScreenKeyboard.SpellThenSubmit | game2.py:142-147 | Spelling such a word and tapping `OK` returns the name with the word appended, cut to 10 characters |
| OnScreenKeyboard.GetNameInput | game2.py:113-148 | The loop over taps returns exactly what the fold `Run` gives |
| KeyboardPrompt.HandleKey | game.py:47-53 | Return on a non-empty name stops the prompt and keeps the name; Backspace removes the last character; other keys append their text only below 10 characters; Return on an empty name appends its own text |
| KeyboardPrompt.HandleEvents | game.py:44-53 | One frame of events makes the prompt answer at once exactly when it contains a window close |
| KeyboardPrompt.Prompting | game.py:38-54 | A stopped prompt returns its name; a prompt still waiting has seen no window close |
| KeyboardPrompt.QuitAnswersAnonymous | game.py:45-46 | Closing the window during entry answers "Anonim" |
| KeyboardPrompt.HandleEventsKeepsShort | game.py:52-53 | With one-character key texts a frame never takes the name past 10 characters |
| KeyboardPrompt.NameStaysShort | game.py:52-53 | With one-character key texts the entered name has at most 10 characters |
| KeyboardPrompt.BackspaceUndoesTyping | game.py:50-53 | Backspace right after a character typed below the limit restores the prompt |
| KeyboardPrompt.TypeThenReturn | game.py:48-54 | Typing a word that fits and pressing Return enters exactly that word |
| KeyboardPrompt.ReturnOnEmptyNameTypesIt | game.py:48-53 | Return on an empty name does not finish: it types a carriage return, which a second Return then enters |
| KeyboardPrompt.KeysAfterReturnStillEdit | game.py:44-54 | `running` is checked only between frames: typing "a", then Return and Backspace in one frame, enters the empty name |
| KeyboardPrompt.PromptForName | game.py:35-54 | The loop over frames returns exactly what `Prompting` gives |

## Left out

- Rendering and UI layout are not modelled: fonts, colours, `draw_*`, `show_highscores`, the menus and `countdown`. The loops' `time.sleep` and `clock.tick` waits are also left out.
- Hit-testing of the on-screen keys and of the STOP button is not modelled. A tap is given as the label it landed on, and a stop as a flag of the tick.
- GPIO is not modelled. The button levels are the tick's `pressed` input. The LED outputs are the `lit` array, which is written low for every channel when the loop is left.
- The random channel choice (`random.randint(0, 1)`) is an input of the tick, not modelled as random.
- JSON files are not modelled. The store is a map from level to table, and a missing file is a missing key. The store's constructor is the newly created, empty `wyniki` directory; a restarted program goes on with the store as it was.
- The clock is an input, and the ticks of a run are a finite sequence. The loops end in the model when their inputs run out; `Waiting`/`Typing` results and an unended state stand for "still running".
- Session.SessionOver: divides exactly, where Python's `/` is floating-point. For integer milliseconds the rounded quotient reaches 60.0 exactly when the exact one does, but the model does not prove anything about floating point.
- Closing the window during `get_name_input` (game2.py:119-122) calls `sys.exit`, which the model leaves out.
- Session.ReactionGame.Tick: a stop seen during a tick is acted on at the next call. The code's `while not stop_requested` test leaves the loop before reading the clock again, so the model needs one more call to finish.
- Highscores.HighscoreStore.MaybeAddHighscore: takes the name as a parameter. The name prompt is `KeyboardPrompt`, which game.py calls only when the score qualifies.
- Scores are unbounded integers, as in Python. A score can go below zero: a wrong button costs a point and nothing clamps it.
- Button presses are not debounced: every reading that finds a button pressed while an LED is lit scores it.
  - A press on either button switches the lit LED off (game2.py:216-225).
  - The pause before the next LED is the fixed on-time (game2.py:214, 225).
