# Lottery draw-state machine

A Dafny model of the small lottery web service: a Flask back end
(`server.py`) that hands out three fixed prizes one per draw and, once they
are gone, a random love poem; and the slot-selection step of the spinning
wheel on the page (`public/script.js`) that turns the server's reply into the
slot the wheel stops on.

- `lottery_server.dfy`, module `LotteryServer`: the persisted record
  (`drawnPrizes`, `prizes`, `poems`), the default record, the data file as an
  abstract store whose writes may fail, the four handlers (status, draw,
  reset, admin info) and the invariant they keep. The data file is a `class
  DataFile` with a `disk` field; the dictionary a handler loads and mutates
  is a `class DrawData` whose `drawnPrizes` field `draw` appends to and
  `reset` clears. The read-only parts (`Status`, `Admin`, the
  `available_prizes` comprehension, the choice of the next prize) are
  functions, and the handlers' contracts are stated through them.
- `wheel.dfy`, module `Wheel`: the `options` table, `findIndex`, the
  `nonPrizeIndices` map/filter, and the target index with its fallback to
  slot 1.

The central invariant (`LotteryServer.Inv`): the prize ids are pairwise
different and `drawnPrizes` is a prefix, in list order, of them. Every load
from a file that satisfies it (a missing or unreadable file always does)
yields a record satisfying it, and `draw` and `reset` keep it on disk
whatever their writes do. Under it, `allPrizesDrawn` is true exactly when
`draw` finds no prize, prizes come out in list order, and an exhausted
record is a fixed point of `draw`.

The code keeps no draw sequence and no cursor: the state is only the list of
drawn prize ids, `draw` always hands out the first prize not yet drawn, and
the status reports `totalPrizes`.

Two client methods chain the handlers end to end on a fresh install where
every write succeeds. `FreshInstallScenario` runs three prize draws
(`大奖`, `二等奖`, `特别奖`), a status of 3/3/all drawn, a poem draw that
leaves the file as it was, and a reset back to the default record.
`LostWriteScenario` is described below.

How failures are represented:
- The data file is `Missing`, `Unreadable` (corrupt JSON or an I/O error on
  reading) or `Holds(record)`.
- Each attempted write has a `WriteOutcome`: `Written`, `OpenFailed` (the
  file is untouched) or `DumpFailed` (the file was truncated and is left
  unreadable). Every write a handler can attempt gets one of these as a
  parameter.
- When the file is missing, `read_data` calls `init_data`, which writes the
  default record. If that write raises, the `except` branch calls `init_data`
  a second time, outside the `try`. That second call writes again only when
  the first write failed to open the file (`OpenFailed`), so the file is
  still missing. After a `DumpFailed` first write the file exists, so the
  second call writes nothing and returns the default record. If a second
  write is attempted and also raises, the exception escapes the handler.
  This is modelled as `Reply.Crashed` (so is `random.choice` on an empty
  poem pool).
- `draw` ignores the result of its own write. `reset` answers 500 when its
  write fails.
- What follows from `draw` ignoring its write: a `DumpFailed` write leaves the file
  `Unreadable`. The next load then falls back to the default record, so all
  progress is lost and the next draw hands out `大奖` again. One prize can
  thus go out twice. `DumpFailureRestartsDraws` states this for the pure
  functions, and the client method `LostWriteScenario` shows it through the
  handlers (`大奖`, `二等奖` with a failed write, then `大奖` again).
- An `OpenFailed` draw write leaves the file as it was (`AfterWrite`), so
  the next draw hands out the same prize again.

## Model

| member | source | states |
|---|---|---|
| `LotteryServer.DefaultRecordShape` | server.py:20-51 | the default record has no drawn prizes, the 3 prizes `grand`, `second`, `special`, 20 poems, and satisfies the invariant |
| `LotteryServer.InvDrawnDistinct` | server.py:109-117 | under the invariant `drawnPrizes` has no duplicates and is no longer than `prizes` |
| `LotteryServer.Status` | server.py:91-98 | `drawnCount` and `totalPrizes` are the lengths of `drawnPrizes` and `prizes`; `allPrizesDrawn` holds exactly when `drawnCount >= totalPrizes` |
| `LotteryServer.Admin` | server.py:156-163 | the admin view returns `drawnPrizes` and `prizes` unchanged, and its `allPrizesDrawn` is the status view's |
| `LotteryServer.Available` | server.py:109-112 | a prize is available exactly when it is in `prizes` and its id is not in `drawnPrizes` |
| `LotteryServer.AvailableHead` | server.py:109-116 | the first available prize is the prize at the first position whose id has not been drawn |
| `LotteryServer.Choose` | server.py:109-116 | a chosen prize is in `prizes` and its id has not been drawn; when none is chosen, every prize id has been drawn (`ChooseIsFirstUndrawn` adds that the choice is the first undrawn position) |
| `LotteryServer.AfterDraw` | server.py:114-118 | the record `draw` persists keeps `prizes` and `poems`, extends `drawnPrizes` by at most one id, and equals the loaded record exactly when no prize is left (`DrawPreservesInv` names the id appended) |
| `LotteryServer.AfterReset` | server.py:140-141 | the record `reset` persists keeps `prizes` and `poems`, reports zero drawn, reports all drawn only for an empty prize list, and satisfies the invariant whenever the prize ids are distinct (`ResetEstablishesInv`) |
| `LotteryServer.PrizeMessage` | server.py:124 | the congratulation is the fixed opening, then the prize name, then `！`, so the name can be read back from it |
| `LotteryServer.ChooseIsFirstUndrawn` | server.py:109-116 | `draw` finds no prize exactly when every prize id has been drawn; otherwise it picks the prize at the first undrawn position |
| `LotteryServer.ChooseUnderInv` | server.py:109-117 | under the invariant, the next prize is `prizes[len(drawnPrizes)]`, and none is left exactly when `len(drawnPrizes) >= len(prizes)` |
| `LotteryServer.AllDrawnIffNoneAvailable` | server.py:95-114 | under the invariant, `allPrizesDrawn` (status and admin view) holds exactly when `available_prizes` is empty |
| `LotteryServer.DrawPreservesInv` | server.py:109-118 | a draw keeps the invariant, appends exactly the next prize id, changes neither `prizes` nor `poems`, and changes nothing once all are drawn |
| `LotteryServer.ResetEstablishesInv` | server.py:140-141 | clearing `drawnPrizes` keeps `prizes` and `poems` and re-establishes the invariant |
| `LotteryServer.DrawsInOrder` | server.py:109-118 | `n` draws extend `drawnPrizes` by the next `n` prize ids in list order, capped at all of them, keeping `prizes`, `poems` and the invariant |
| `LotteryServer.NthDrawInOrder` | server.py:114-124 | the `n`-th draw from an invariant record hands out the prize at position `len(drawnPrizes) + n` |
| `LotteryServer.ExhaustedIsStable` | server.py:126-134 | once no prize is left, any number of draws leaves the record unchanged |
| `LotteryServer.ExhaustedRecord` | server.py:95-134 | a record with every prize drawn reports `allPrizesDrawn`, `draw` finds no prize in it, and any number of draws leave it unchanged |
| `LotteryServer.FreshRecordOrder` | server.py:109-124 | from a record with nothing drawn, the `k`-th draw hands out `prizes[k]` |
| `LotteryServer.FreshRecordExhausted` | server.py:95-134 | after as many draws as there are prizes, `drawnPrizes` is the full id list, `allPrizesDrawn` holds, and later draws change nothing |
| `LotteryServer.DefaultScenario` | server.py:22-134 | from the default record three draws give `大奖`, `二等奖`, `特别奖` in that order, `allPrizesDrawn` is then true, and every later draw leaves the record unchanged |
| `LotteryServer.AfterWrite` | server.py:73-81 | a successful write stores the record; a failed one leaves the file untouched or unreadable, never holding another record |
| `LotteryServer.InitOutcome` | server.py:20-57 | `init_data` yields the default record; it writes it only when the file is missing and raises exactly when that write fails |
| `LotteryServer.ReadOutcome` | server.py:60-70 | `read_data` yields the stored record when readable and the default record otherwise; it raises only when the file is missing and both `init_data` writes fail, the first without creating the file |
| `LotteryServer.OutsideInvFlagDisagrees` | server.py:95-116 | for a stored record outside the invariant (three unknown drawn ids), `allPrizesDrawn` is true while `draw` still hands out the first prize |
| `LotteryServer.DumpFailureRestartsDraws` | server.py:114-118 | after a write that fails mid-dump, the next load yields the default record, whose next prize is the first one again (`draw` does not check its write) |
| `LotteryServer.ReadKeepsInv` | server.py:60-70 | a load keeps the disk invariant and yields a record satisfying it |
| `LotteryServer.DataFile.WriteData` | server.py:73-81 | reports success exactly when the write succeeded, and the file afterwards is as the write outcome leaves it |
| `LotteryServer.DataFile.InitData` | server.py:20-57 | the file and the result are those `InitOutcome` gives for the old file |
| `LotteryServer.DataFile.ReadData` | server.py:60-70 | the file and the result are those `ReadOutcome` gives for the old file |
| `LotteryServer.DrawData.AppendDrawn` | server.py:117 | appends one id to `drawnPrizes` and leaves `prizes` and `poems` alone |
| `LotteryServer.DrawData.ClearDrawn` | server.py:141 | empties `drawnPrizes` and leaves `prizes` and `poems` alone |
| `LotteryServer.GetStatus` | server.py:91-98 | the reply is the status view of the loaded record; only the load may touch the file |
| `LotteryServer.AdminInfo` | server.py:156-163 | the reply is the admin view of the loaded record; only the load may touch the file |
| `LotteryServer.Draw` | server.py:102-134 | with a prize left: replies `prize` with its name and the congratulation, and stores the record with its id appended, as the write outcome allows; with none left: replies `poem` with a member of `poems` (crashes on an empty pool), and does not write; the disk invariant is kept |
| `LotteryServer.Reset` | server.py:138-152 | stores the loaded record with `drawnPrizes` emptied, as the write outcome allows; replies 200 with success exactly when the write succeeded, else 500 with failure; the disk invariant is kept |
| `Wheel.FindIndex` | public/script.js:111 | the result is -1 exactly when no slot has the text, otherwise the first slot with that text |
| `Wheel.MarkNonPrize` | public/script.js:115 | one entry per slot, -1 exactly at the prize slots, and the other entries strictly increasing |
| `Wheel.NonPrizeIndices` | public/script.js:114-116 | every entry is a slot position (`NonPrizeIndicesExact` states it is the ascending list of exactly the non-prize positions) |
| `Wheel.DropMarks` | public/script.js:116 | the filtered list holds exactly the entries that are not -1 |
| `Wheel.DropMarksIncreasing` | public/script.js:114-116 | filtering out the -1 marks keeps the remaining indices in strictly increasing order |
| `Wheel.NonPrizeIndicesExact` | public/script.js:114-116 | `nonPrizeIndices` is strictly increasing and holds exactly the positions of the non-prize slots |
| `Wheel.OptionsNonPrizeIndices` | public/script.js:5-14 | for the `options` table, `nonPrizeIndices` is `[1, 3, 5, 6, 7]` |
| `Wheel.RawTarget` | public/script.js:108-118 | before the fallback: for a prize reply, the `findIndex` of its name; otherwise an element of `nonPrizeIndices` |
| `Wheel.TargetIndex` | public/script.js:108-122 | the final index is a slot of the table; for a prize it is the first slot with that name, or slot 1 when none matches; for a poem it is a non-prize slot |
| `Wheel.FallbackIsNonPrize` | public/script.js:120-122 | the fallback slot 1 is the non-prize slot `谢谢参与` |
| `Wheel.ServerPrizesHaveSlots` | public/script.js:5-11 | `findIndex` finds the server's prize names `大奖`, `二等奖`, `特别奖` at the prize slots 0, 2 and 4, so a prize reply never uses the fallback |
| `Wheel.DrawnPrizeLandsOnItsSlot` | public/script.js:109-111 | the prize handed out by the `n`-th draw from the default record turns the wheel to the prize slot bearing its name, at position `2n` |

## Left out

- Flask set-up, routing, CORS, serving `index.html`, the start-up banner and `app.run`: HTTP and process glue.
- JSON encoding and real file I/O: the data file is the abstract `Disk`, and each write's fate is a `WriteOutcome` parameter. Whether a read succeeds is decided by the state of the file (`Unreadable`), not by a separate transient fault.
- `print` logging of read and write failures.
- A stored record that lacks `drawnPrizes` or `prizes` (a `KeyError`): the stored record is taken to be well formed.
- AllDrawnIffNoneAvailable, ChooseUnderInv, DrawsInOrder, NthDrawInOrder and the other invariant lemmas say nothing about a stored record outside the invariant. Such a file is loaded unchanged. For example, `drawnPrizes = ["x", "y", "z"]` makes `allPrizesDrawn` true while `draw` still hands out the first prize (`OutsideInvFlagDisagrees`). Starting from a file that satisfies the invariant, the handlers never write a record outside it; a file already outside it is written back outside it, since `draw` appends to whatever was loaded.
- Races between concurrent requests: each handler runs alone from load to write.
- LotteryServer.Draw: the poem is any member of `poems`; that `random.choice` picks it uniformly is not modelled.
- Wheel.TargetIndex: the random position into `nonPrizeIndices` is the parameter `pick`, required to lie below the list's length; that the page draws it uniformly is not modelled.
- In `public/script.js`, everything outside the target-index selection: canvas drawing, the floating-point angle and eased animation, the result dialog, `fetch` error handling and the `isSpinning` guard.
