# Spectrum allocation, proved

A Dafny model of the part of the system that decides who holds which frequency, when. The product's
promise is one sentence: *no two allocations ever hold the same Hz of the same resource at the same
time*. Around it stand the lifecycle that moves allocations, the approvals and revisions that record
why, and the integer arithmetic that turns an operator's request into two exact ranges.

`dafny verify dfyconfig.toml` checks everything.

## How it is laid out

| Module | What it models |
|---|---|
| `Ranges`, `Periods` | half-open intervals of Hz and of time, the second with an optional end |
| `Rounding`, `Bandwidth` | ceilings, floors and the fifty-digit quotient; guards, translation, placement on both legs |
| `Gaps`, `Capacity` | the sweep that finds free spectrum, and what it adds up to |
| `Conversion` | RF to IF and back, and the choice of equipment |
| `MasterData` | windows, assignments, directions, Beams and Satnets, and what the database guarantees about them |
| `Reservations` | the reservation table: its CHECKs, its exclusion constraint, and `reserve`, `set_status`, `release` |
| `Selectors` | the view of the table at one moment, and capacity |
| `Containment` | a period against its three parents |
| `PathServices`, `Previews`, `AutoPlacement` | `preview`, exactly when it finds nothing, `auto_place`, and the record that is stored |
| `Lifecycle` | create, edit, transition, decide and revise, each a new state or an error |
| `PathRegistry` | the same operations step by step on mutable records and rows, with rollback, proved equal to `Lifecycle` |
| `RowAccounting`, `TableInvariant`, `HistoryInvariant` | what each operation does to the rows of each owner, and what it keeps |
| `AllocationSafety`, `AllocationHistory` | the theorems about every run |
| `StoredRows`, `Requests`, `Acceptance` | the same state column by column: what each row says of its record, what each request writes, exactly which requests are accepted |
| `CloseThenOpen`, `MoveOutcomes`, `PeriodPromises`, `DerivedFields` | why the order of writes matters, exactly when a request or a move succeeds, what is promised about periods and stored figures |
| `Witnesses` | one small world, and in it an input for each thing that turned out not to be so |
| `Versioning`, `Locking` | master data that is superseded, and editors that write back a copy |
| `Sorting`, `Wrappers` | a stable sort, `Option` and `Result` |

An operation that the source runs inside a transaction is a function from the stored state to a new
state or an error, and a method of `Reservations.ReservationTable`, `PathRegistry.Registry`,
`Versioning.VersionTable` or `Locking.EditableRecord` that changes fields one statement at a time and
puts them back on refusal. The method's `ensures` ties it to the function; lemmas say what the function
promises. Hz and instants are integers. A roll-off is a whole number of thousandths, a guard
percentage a whole number of thousandths of a percent. A row's edges are typed as ranges that run
forwards, which is what the range constructor and the row CHECKs enforce.

## What turned out not to be so

The model follows the code. Where that parts from the documentation, or from what one would hope, the
exact condition is proved, and `Witnesses` has an input on which it happens.

- `create` takes any initial status. The invariant survives exactly for `DRAFT`, `PLANNED` and
  `PENDING_APPROVAL` (`AllocationSafety.CreateIsSafeExactlyWhenPermitted`,
  `Witnesses.ForbiddenStatusIsAccepted`); every statement about runs assumes new allocations start in one
  of these.
- `auto_place` is described as giving the leftmost centre whose allocated range still fits. For an even
  occupied bandwidth it does. For an odd one the range starts exactly 1 Hz below the gap
  (`AutoPlacement.AutoPlaceFitsExactlyEvenBandwidths`, `Witnesses.OddProposalStartsBelowTheGrant`). Its own
  preview passes such a proposal only when that 1 Hz is granted and whoever holds it now does not hold it
  during the period asked for (`AutoPlacement.AutoPlacedUplinkIsCleanIff`), so never for a period that has
  begun (`AutoPlacement.OddProposalsAreCleanOnlyForAnotherTime`), and sometimes for a later one
  (`Witnesses.OddProposalForLaterIsClean`).
- A preview looks only at the lowest grant of a window, so a gap in another grant is proposed and then
  refused: the range passes exactly when the lowest grant has room by itself
  (`AutoPlacement.ProposalIsInLowestGrantIff`, `Witnesses.SecondGrantIsProposedAndRefused`).
- Which leg a direction is typed on is described as configuration. A payload that goes up on an uplink can
  be typed on that uplink only: with the downlink named, or none, the preview takes the downlink for the
  canonical leg and passes what the path table then refuses (`Acceptance.OnlyUplinkDirectionsAreStored`,
  `Witnesses.DownlinkDirectionIsNeverStored`).
- `revise` closes the predecessor before it reads the end it means to carry forward, so a revision that
  leaves the end alone is always refused (`PeriodPromises.EndIsCarriedForwardIff`,
  `PeriodPromises.RevisingNeedsAnEnd`, `Witnesses.RevisionMustNameItsEnd`).
- `plan` runs no preview. Everything that has rows lies inside its Satnet and its Beam throughout a run
  exactly when every plan the run accepts is of a draft that did (`PeriodPromises.RunStaysInsideIff`,
  `Witnesses.DraftOutsideItsSatnetIsPlanned`).
- A preview sees only rows in force at one moment and compares one grant's period. A clean preview loses
  exactly to a row of another allocation whose time is not now, or to a translated grant that does not
  cover the period (`CloseThenOpen.AcceptedProposalIsWrittenIff`, `Witnesses.CleanPreviewLosesToTheFuture`,
  `Witnesses.CleanPreviewLosesToAShortGrant`).
- Approving is said to be refused most often because the spectrum was taken in the meantime. It cannot
  be: rows that wait for approval hold their spectrum. Only resuming can lose it
  (`MoveOutcomes.StatusMovesSucceedIff`).
- `symbol_rate_sps` says a round trip may return a rate one symbol per second lower. From symbol rate to
  bandwidth and back it never does (`Bandwidth.RateRoundTrip`); from bandwidth to rate and back 1 Hz may
  go missing (`Bandwidth.BandwidthRoundTrip`, `Witnesses.BandwidthRoundTripLosesAnHz`).
- Reported free and covered Hz make up the total exactly when no covered Hz is entitled twice. Grants of
  one window ensure it; a leg that neither window covers is reported over the grants of both
  (`Capacity.CapacityIsConserved`, `Selectors.ReportedCapacityIsConserved`,
  `Witnesses.SharedGrantsLoseAnHz`).
- A conditional write protects an editor whose copy was read from the row. An instance that a refused
  write has left in memory carries the next version already, and written again without a version it
  overwrites an edit its author never saw. A write is safe exactly when it is made against the version its
  author read (`Locking.AcceptedWriteHadSeenEverythingIff`, `Locking.LeftoverInstanceOverwrites`), as it is
  when it comes from a form (`Locking.AcceptedFormsHadSeenEverything`).

## Model

| member | source | states |
|---|---|---|
| `Ranges.OverlapIsSharedHz` | calculations/ranges.py:82-90 | Two ranges overlap, by their edges, exactly when some Hz belongs to both. |
| `Ranges.ContainmentIsEveryHz` | calculations/ranges.py:74-80 | One range contains another, by their edges, exactly when it contains each of its Hz. |
| `Ranges.OperationsMoveEveryHz` | calculations/ranges.py:103-134 | A shift moves every Hz by the same amount, a reflection turns Hz x into constant - 1 - x, and expanding adds just the Hz on either side. |
| `Ranges.NeighbourScanIsComplete` | calculations/ranges.py:137-153 | For any list of ranges: `any_overlap` finds nothing exactly when no two of them overlap, and otherwise the first pair in spectrum order that does; nothing before the pair overlaps anything. |
| `Periods.LatestStart` | calculations/periods.py:67-88 | The start of an intersection is one of the starts and none is later. |
| `Periods.EarliestEnd` | calculations/periods.py:67-88 | Its end is missing exactly when all are; otherwise it is one of them and none is earlier. |
| `Periods.OverlapIsSharedMoment` | calculations/periods.py:59-64 | Two periods overlap exactly when both are in force at some moment, open ends included. |
| `Periods.ContainmentIsEveryMoment` | calculations/periods.py:43-57 | One period contains another exactly when every moment of the inner is a moment of the outer, open ends included. |
| `Periods.PeriodIsRefusedIff` | calculations/periods.py:35-38 | A period is refused exactly when no moment would be in it. |
| `Periods.IntersectIsGreatestLowerBound` | calculations/periods.py:67-88 | A period fits the intersection exactly when it fits every parent. |
| `Periods.NoIntersectionIffTwoDisjoint` | calculations/periods.py:67-88 | There is no intersection exactly when some two of the periods do not overlap. |
| `Rounding.CeilDivIsLeast` | calculations/rounding.py:88-94 | Rounding up gives the least whole number that is not below the quotient. |
| `Rounding.FloorDivIsGreatest` | calculations/rounding.py:97-103 | Rounding down gives the greatest whole number that is not above it. |
| `Rounding.HalfEven` | calculations/rounding.py:78-85 | One division in the context is off by at most half a unit of its last place. |
| `Rounding.TiesGoToEven` | calculations/rounding.py:78-85 | A quotient halfway between two last places goes to the even one. |
| `Rounding.QuotientKeepsFiftyDigits` | calculations/rounding.py:37-85 | The quotient is taken at exactly as many places as leave fifty digits, or as many dropped zeros, and there to the nearest. |
| `Rounding.FloorSurvivesRounding` | calculations/rounding.py:37-85 | Rounding the quotient to fifty digits moves it across no whole number, when the digits are finer than the denominator can tell apart. |
| `Rounding.PlacesAtLeast` | calculations/rounding.py:37-51 | The shorter the integer part, the more decimal places the fifty digits leave. |
| `Bandwidth.QuotientNeverChangesTheFloor` | calculations/bandwidth.py:44-62 | Below 10^40 Hz the symbol rate is the floor of the true quotient, for every roll-off in thousandths. |
| `Bandwidth.RateIs` | calculations/bandwidth.py:44-62 | The symbol rate is the one whole number the bandwidth can carry and whose successor it cannot. |
| `Bandwidth.RoundingsAreAdjoint` | calculations/bandwidth.py:28-62 | The occupied bandwidth of a rate fits in b exactly when the rate is at most the symbol rate of b. |
| `Bandwidth.RateRoundTrip` | calculations/bandwidth.py:28-62 | Symbol rate to bandwidth and back is the identity. |
| `Bandwidth.BandwidthRoundTrip` | calculations/bandwidth.py:28-62 | Bandwidth to a positive rate and back never grows and loses at most 1 Hz. |
| `Bandwidth.RequestIsResolved` | calculations/bandwidth.py:65-79 | A request is refused exactly for a value that is not positive or a roll-off outside 0 to 1. Otherwise what was typed is kept; a typed rate gets the least bandwidth that holds it at its roll-off, a typed bandwidth the greatest rate it holds. |
| `Bandwidth.PercentOf` | calculations/guards.py:104-115 | A percentage guard is the least whole number of Hz that is not below the percentage. |
| `Bandwidth.GuardsAreLeast` | calculations/guards.py:39-77 | In every mode, each side's guard is the narrowest that is wide enough for all the policy asks of that side. |
| `Bandwidth.TranslationRoundTrip` | calculations/translation.py:90-128 | `untranslate` undoes `translate` and the other way round, for shifts and reflections. |
| `Bandwidth.TranslationMovesEveryHz` | calculations/translation.py:90-145 | Adding moves every Hz up by the constant, subtracting moves it down, reflecting turns Hz x into constant - 1 - x; the edges go where frequencies go. |
| `Bandwidth.BothSidesDescribeOneTransmission` | calculations/bandwidth.py:106-173 | Whichever side was typed: the downlink is the exact image, widths agree, occupied lies inside allocated on both legs, the image is centred on the image of the centre, and a reflection swaps the guard margins while a shift does not. |
| `Bandwidth.CollisionsAgreeOnBothLegs` | calculations/translation.py:90-105 | Two placements through one payload collide, or contain one another, on the uplink exactly when they do on the downlink. |
| `Sorting.SortSorts` | calculations/gaps.py:85 | The stand-in for `sorted` returns the same elements in order. |
| `Sorting.SortIsStable` | calculations/gaps.py:85 | Elements that tie keep the order they came in. |
| `Sorting.SortedIsUnique` | calculations/conversion.py:254-255 | When ties are impossible, sorting does not depend on the order the elements came in. |
| `Gaps.Subtract` | calculations/gaps.py:75-95 | The sweep returns exactly the entitled Hz that nothing occupies, in pieces that ascend and never touch. |
| `Gaps.SubtractIsComplement` | calculations/gaps.py:75-95 | An Hz is free exactly when it is in the entitlement and in no occupied range, for any list: unsorted, overlapping, nested or outside. |
| `Gaps.SeparatedIsUnique` | calculations/gaps.py:75-95 | The pieces are maximal: lists of separated ranges are determined by the Hz they cover. |
| `Gaps.SubtractIgnoresPresentation` | calculations/gaps.py:75-95 | The answer depends only on which Hz are occupied, not on how or in what order the list says so. |
| `Gaps.FreeRangeLiesInOnePiece` | calculations/gaps.py:75-95 | A range lies inside one piece exactly when it is entitled and clear of everything occupied. |
| `Gaps.NearestBelow` | calculations/gaps.py:161-163 | The neighbour below a gap is the highest occupied end at or below it, or there is none. |
| `Gaps.NearestAbove` | calculations/gaps.py:166-168 | The neighbour above a gap is the lowest occupied start at or above it, or there is none. |
| `Gaps.Find` | calculations/gaps.py:98-125 | The two nested loops report the gaps of every entitlement, in ascending order. |
| `Gaps.FindMembers` | calculations/gaps.py:98-125 | A gap is reported exactly when it is a wide enough piece of what some entitlement has left; gaps are never merged across two. |
| `Gaps.FindReportsExactlyTheWholePieces` | calculations/gaps.py:98-125 | The ranges reported are exactly the maximal runs of free Hz of one entitlement that are wide enough. |
| `Gaps.GapsKnowTheirNeighbours` | calculations/gaps.py:98-125 | Each gap names the nearest occupied edge on either side, among everything occupied, or that there is none. |
| `Gaps.GapsCoverExactlyTheFreeRanges` | calculations/gaps.py:98-125 | A range lies inside a reported gap exactly when one entitlement contains it and nothing occupied overlaps it. |
| `Gaps.GapsAscend` | calculations/gaps.py:98-125 | Gaps come in ascending order. |
| `Gaps.FirstFitIsCompleteAndLowest` | calculations/gaps.py:146-158 | `first_fit` finds nothing exactly when the width fits nowhere; otherwise its gap holds the width and no fitting range starts lower. |
| `Capacity.WidthCountsHz` | calculations/ranges.py:52-54 | The width of a range is the number of its Hz. |
| `Capacity.CapacityIsConserved` | calculations/gaps.py:128-143 | 0 <= free <= total; free plus covered Hz never exceeds the total and equals it exactly when no covered Hz is entitled twice. |
| `MasterData.LegResourcesDistinct` | beams/models.py:425-434 | A leg lists each resource it competes on once. |
| `MasterData.LegsShareNoResource` | beams/models.py:400-434 | The two legs of a direction compete on different resources. |
| `MasterData.ExclusiveMeansNoHzIsGrantedTwice` | beams/models.py:361-373 | The constraint on grants holds exactly when at no moment one Hz of one window is granted twice. |
| `Reservations.ExclusiveMeansNoHzIsHeldTwice` | spectrum/models.py:216-234 | The exclusion constraint holds of a table exactly when at no moment one Hz of one resource is held by two rows. |
| `Reservations.InsertIsDecided` | spectrum/models.py:140-234 | A row is refused as malformed exactly when it breaks one of its CHECKs, written out; as a conflict exactly when besides it would hold an Hz of its resource at a moment another row does; otherwise it is added. |
| `Reservations.WritingIsWholeSetChecking` | spectrum/services.py:118-123 | Checking every INSERT as it happens accepts exactly what checking the finished table would. |
| `Reservations.ReserveIsWholeSetChecking` | spectrum/services.py:107-170 | `reserve` succeeds exactly when every grant is active and covers the period, every row is well formed and the finished table is exclusive; then it leaves that table. |
| `Reservations.ReserveRefusalIsExplained` | spectrum/services.py:107-170 | Each kind of refusal names its cause: a grant that does not cover the period, a row that breaks a CHECK, or a finished table that would not be exclusive. |
| `Reservations.UpdatesAreWholeSetChecking` | spectrum/services.py:173-215 | From any point on the way, the remaining UPDATEs succeed exactly when the finished table is exclusive. |
| `Reservations.SetStatusIsWholeSetChecking` | spectrum/services.py:173-215 | In whatever order the query returns the rows, moving them one at a time succeeds exactly when the finished table is well formed and exclusive, and leaves that table. |
| `Reservations.ReservationTable.Insert` | spectrum/services.py:248-250 | One INSERT: the row is added, or the table stays as it was with the reason. |
| `Reservations.ReservationTable.Update` | spectrum/services.py:253-266 | One UPDATE of status and flag, checked against every other row. |
| `Reservations.ReservationTable.Reserve` | spectrum/services.py:107-170 | Every row or none: the table is extended by exactly the rows asked for, or is untouched. |
| `Reservations.ReservationTable.SetStatus` | spectrum/services.py:173-215 | Both columns of every row of one allocation move, or nothing does. |
| `Reservations.ReservationTable.UpdateEach` | spectrum/services.py:192-198 | The loop over the rows, with its rollback. |
| `Reservations.ReservationTable.Release` | spectrum/services.py:218-245 | Every row of one allocation goes and no other. |
| `RowAccounting.ReservingAddsToOneOwner` | spectrum/services.py:107-170 | Reserving adds the booked rows to one owner and leaves every other owner's rows alone. |
| `RowAccounting.ReleasingEmptiesOneOwner` | spectrum/services.py:218-245 | Releasing empties one owner and leaves every other alone. |
| `RowAccounting.RestatusMovesOneOwner` | spectrum/services.py:173-215 | A change of status touches the rows of one owner only. |
| `RowAccounting.MovedRowsAreRebookedRows` | spectrum/services.py:173-215 | Rows moved to a status are the rows that would be booked in that status. |
| `RowAccounting.ReleaseKeepsExclusive` | spectrum/services.py:218-245 | Dropping rows cannot break the constraint. |
| `Selectors.ActiveAssignmentMembers` | spectrum/selectors.py:23-42 | The grants returned are exactly the active ones of the window in force at that moment. |
| `Selectors.ReservationsOnMembers` | spectrum/selectors.py:45-69 | The rows returned are exactly those that hold spectrum on these resources at that moment and are not the excluded allocation's. |
| `Selectors.ExcludingIsReleasing` | spectrum/selectors.py:66-68 | Leaving an allocation out is reading a table from which its rows have been released. |
| `Selectors.ReservationsOnAscend` | spectrum/selectors.py:69 | They come by allocated start. |
| `Selectors.CapacityAgreesWithConstraint` | spectrum/selectors.py:72-111 | A range lies inside a reported gap exactly when a grant in force covers it and the constraint would accept it at that moment on every resource of the leg, whichever Beam holds the rest. |
| `Selectors.ReportedCapacityIsConserved` | spectrum/selectors.py:72-124 | On a leg that a window covers, reported free Hz plus entitled Hz held by rows equal the total, because grants of one window are exclusive. |
| `Containment.CommonPeriodFitsEveryParent` | satnets/containment.py:87-133 | A period fits the common period exactly when it fits the Satnet, the Beam and the assignment. |
| `Containment.CleanVerdictMeansContained` | satnets/containment.py:87-210 | The verdict has no finding exactly when the assignment is the right one and all three parents cover the whole period. |
| `Containment.FindingsMean` | satnets/containment.py:87-248 | The verdict holds a finding exactly when what it says is so: each way of belonging that is wrong, with the parent to act on; no common period, with the first parent to end; or a period that is not contained, with the first parent, Satnet before Beam before assignment, that does not cover it. |
| `Containment.RefusalNamesABrokenParent` | satnets/containment.py:213-233 | The limiter that a refusal names does not cover the period. |
| `Containment.OfferedMaximumIsTheCommonPeriod` | satnets/containment.py:107-133 | The maximum offered is the largest period every parent covers. |
| `Containment.NoCommonPeriodNamesTheFirstToClose` | satnets/containment.py:236-248 | With no common period, the parent named has an end, none ends sooner, and some parent has not begun by then; the branch for parents that never end is never taken. |
| `Containment.OpenEndedNamesTheLatestStart` | satnets/containment.py:236-248 | Of parents that never end, that branch would name the first of those that start last. |
| `PathServices.StoredEdgesAreTheAllocation` | satnet_paths/services.py:435-525 | Reading an allocation back from its record asks for exactly the occupancies that computing it asked for. |
| `PathServices.OneAllocationNeverConflictsWithItself` | satnet_paths/services.py:435-478 | The rows of one path never conflict with each other. |
| `AutoPlacement.AutoPlaceFitsExactlyEvenBandwidths` | satnet_paths/services.py:211-258 | The range proposed ends where the width needed from the lowest fitting gap ends, and starts at the gap for an even bandwidth and 1 Hz below it for an odd one; it fits a gap exactly when the bandwidth is even, and no lower centre does. |
| `AutoPlacement.EveryFeasibleCentreIsHigher` | satnet_paths/services.py:234-247 | No centre whose whole range fits a gap is lower than the proposed one. |
| `AutoPlacement.AutoPlaceIsComplete` | satnet_paths/services.py:234-242 | No centre is found exactly when no range of the needed width is granted and free now on the canonical leg, which is the uplink where none is named. |
| `AutoPlacement.AutoPlaceIsDecided` | satnet_paths/services.py:211-258 | A direction that is not configured or a request without a size is refused; nothing fits exactly when no range of the width could be had; otherwise the answer is the preview of a centre. |
| `Previews.LegIsCleanIff` | satnet_paths/services.py:737-833 | A leg has no finding exactly when it is mapped, its grant contains it, and no row in force now on its resources shares Hz and period with it. |
| `Previews.LegFindingsMean` | satnet_paths/services.py:737-833 | Each finding about a leg is there exactly when what it says is so; a collision lists exactly the rows in the way, by allocated start. |
| `Previews.AssignmentIsTheLowestGrant` | satnet_paths/services.py:632-638 | A leg is judged by the lowest of the grants of its window that are active and in force now, or by none when there is none. |
| `Previews.PreviewDescribesTheRequest` | satnet_paths/services.py:124-208 | Sizes and guards fit what was typed, the override before the Satnet's policy before none; the uplink stands around the typed centre and the downlink is its image; without both grants that is the one finding. |
| `Previews.PreviewIsRefusedIff` | satnet_paths/services.py:124-208 | A preview is refused exactly for a direction that is not configured, a value or roll-off out of range, a payload constant below zero or, where both windows are granted, a period that does not run forwards. |
| `Previews.ExcludingIsPreviewingTheRest` | satnet_paths/services.py:393-396 | A preview that leaves an allocation out is the preview of the table without its rows. |
| `Previews.FindingsComeFromParentsAndLegs` | satnet_paths/services.py:188-197 | A preview lists what the three parents and the two legs have against the request, all of it and nothing else. |
| `AutoPlacement.ProposalIsInLowestGrantIff` | satnet_paths/services.py:632-638 | The proposed range lies inside the one grant a preview considers exactly when that grant has room for the width by itself and, for an odd bandwidth, 1 Hz to spare below it. |
| `AutoPlacement.AutoPlacedUplinkIsCleanIff` | satnet_paths/services.py:211-258 | For any period, the preview passes the proposed uplink exactly when the leg is mapped, the lowest grant has room by itself and, for an odd bandwidth, the Hz below that room is granted too and held now by nothing whose period meets the one asked for. |
| `AutoPlacement.AutoPlacedIsCleanIff` | satnet_paths/services.py:211-258 | A proposal of `auto_place` has no finding exactly when its uplink fits in that sense, the image of the uplink is clear on the other leg, and the Satnet, the Beam and the lowest grant cover the period. |
| `AutoPlacement.AutoPlacePreviewsItsCentre` | satnet_paths/services.py:211-258 | What `auto_place` returns is the preview of its own centre with the sizes the gap was measured against. |
| `AutoPlacement.OddProposalsAreCleanOnlyForAnotherTime` | satnet_paths/services.py:211-258 | A proposal for an odd bandwidth has no finding only if its period is not in force now. |
| `HistoryInvariant.WriteNewAddsOneRecord` | satnet_paths/services.py:527-601 | A new record is the only record that changes; it starts its own group, or continues its predecessor's with the next number. |
| `HistoryInvariant.DecisionRecordsItsMove` | approvals/services.py:44-111 | A recorded decision moved the path out of `PENDING_APPROVAL` to the status it names, was made by somebody the separate-approver rule allows, and adds one row saying so. |
| `HistoryInvariant.DecisionKeepsHistory` | approvals/services.py:44-152 | A decision and its move keep every approval count, lineage and decision row sound. |
| `HistoryInvariant.EdgesOfTheGraph` | satnet_paths/lifecycle.py:74-165 | Between two statuses there is at most one move and `find` reaches it by its action; what is cancelled or retired has no way out; `ON_AIR` is entered only by approving or resuming. |
| `HistoryInvariant.EveryOpenStatusHasAWayOut` | satnet_paths/lifecycle.py:74-99 | Every status the graph leaves is at most two moves from cancelled or retired. |
| `HistoryInvariant.PlainMovesKeepApprovals` | satnet_paths/lifecycle.py:74-99 | Every other move of the graph keeps the number of approvals right for the new status. |
| `HistoryInvariant.AddingKeepsHistory` | satnet_paths/lifecycle.py:470-474 | A new record inherits no approval and extends its chain by one. |
| `TableInvariant.AcceptedRowsAreSound` | spectrum/services.py:295-331 | Every row that was accepted lies inside an active grant, in Hz and for its whole period. |
| `TableInvariant.MovesMatchStatuses` | satnet_paths/lifecycle.py:74-99 | A move that writes rows starts where there are none, one that moves rows runs between two statuses that have them, and one that drops rows ends where there are none. |
| `TableInvariant.WriteNewKeepsTable` | satnet_paths/services.py:527-601 | After a creation the table is still exactly the view of the records, and exclusive. |
| `TableInvariant.RewriteKeepsTable` | satnet_paths/services.py:366-432 | So it is after an edit. |
| `TableInvariant.ApplyMoveKeepsTable` | satnet_paths/lifecycle.py:224-282 | So it is after every move of the graph. |
| `TableInvariant.ClosingKeepsTable` | satnet_paths/lifecycle.py:454-459 | So it is between the two halves of a revision. |
| `AllocationSafety.TransitionIsOneMove` | satnet_paths/lifecycle.py:194-221 | An accepted transition is one move of the graph from the current status, at the expected version, and an approval only on behalf of the approvals service. |
| `AllocationSafety.RevisionClosesThenOpens` | satnet_paths/lifecycle.py:409-493 | An accepted revision closed the predecessor, then wrote a successor that passed the preview against the table without it. |
| `AllocationSafety.ReviseKeeps` | satnet_paths/lifecycle.py:409-493 | A revision keeps the whole invariant. |
| `AllocationSafety.StepKeeps` | satnet_paths/lifecycle.py:194-493 | Every request, accepted or refused, keeps the whole invariant and leaves the fixed reserves alone. |
| `AllocationSafety.RunKeeps` | satnet_paths/lifecycle.py:194-493 | In every state that any run reaches, refused requests included, the table is exactly the view rebuilt from the records, in order and exclusive; the history is sound; the fixed reserves are those it began with. |
| `AllocationSafety.NothingIsEverHeldTwice` | spectrum/models.py:216-234 | From an empty start, no run ever has one Hz of one resource held twice at one moment. |
| `AllocationSafety.EveryRowBelongs` | spectrum/models.py:157-165 | In every state of every run, each row of the table lies inside its grant, and each row of an allocation inside an active grant for its whole period and among the rows its record should have. |
| `StoredRows.RowsMirrorTheRecord` | spectrum/services.py:107-170 | Column by column: while a record is planned, waiting, on air or suspended it has one row for each stored leg and each resource that leg competes on, with that leg's grant, polarization, occupied and allocated range, the record's period, direction and status, and a flag that is down only for a suspended one under the setting; otherwise it has none. |
| `StoredRows.RowsMirrorTheRecords` | spectrum/services.py:90-215 | So it is in every state of every run, and no row is of a record that does not exist. |
| `StoredRows.NoTwoRecordsHoldOneHz` | spectrum/models.py:216-234 | Of the records themselves: in no run do two allocations hold one Hz, guards included, of one resource at one moment, nor an allocation and a fixed reserve. |
| `StoredRows.FixedReservesStay` | satnet_paths/lifecycle.py:194-493 | No run adds, removes or changes a fixed reserve. |
| `AllocationSafety.CreateIsSafeExactlyWhenPermitted` | satnet_paths/services.py:261-321 | A creation keeps the invariant exactly when its status is `DRAFT`, `PLANNED` or `PENDING_APPROVAL`. |
| `AllocationHistory.AcceptedTouchesOnlyNamed` | satnet_paths/lifecycle.py:194-493 | An accepted request changes the record it names, by one version and along the graph, at the expected version; it adds at most one record and touches no other. |
| `AllocationHistory.AcceptedRequestsWereAllowed` | satnet_paths/lifecycle.py:194-365 | An accepted request passed permission and scope, edits only drafts and planned allocations, revises no history, decides only on what waits for approval and never on one's own work with the setting on, and reaches no approval but by a decision. |
| `AllocationHistory.RowsOfOthersAreUntouched` | satnet_paths/lifecycle.py:194-493 | It leaves the rows of every other allocation as they were. |
| `AllocationHistory.FinalRecordsNeverChange` | satnet_paths/lifecycle.py:95-99 | A cancelled or retired record never changes again in any run, and never holds spectrum again. |
| `AllocationHistory.VersionsOnlyGrow` | satnet_paths/lifecycle.py:225-233 | No run lowers a record's version. |
| `AllocationHistory.OneAcceptedRequestPerVersion` | satnet_paths/lifecycle.py:304-382 | Of two requests made against one version of one record, however long the run between them, at most one is accepted. |
| `AllocationHistory.EarlierRevisionsExistAndAreRetired` | satnet_paths/services.py:559-564 | Below any revision there is one with every smaller number down to 1, in the same group, and it is retired. |
| `AllocationHistory.AtMostOneRevisionHoldsSpectrum` | satnet_paths/lifecycle.py:409-493 | At most one revision of an allocation has rows. |
| `AllocationHistory.ChainsDoNotFork` | satnet_paths/models.py:204-206 | No two revisions replace the same one. |
| `AllocationHistory.OnAirMeansApprovedOnceBySomebodyElse` | approvals/services.py:44-152 | In every run: what is on air or suspended has exactly one approval of its own, what has not got that far has none, and with the setting on no decision was made by the recorded author. |
| `Requests.CreationStoresWhatWasAsked` | satnet_paths/services.py:527-590 | A creation stores the values sent, the caller as author, version 1, and revision 1 of a group of its own; no other record changes. |
| `Requests.EditStoresWhatWasAsked` | satnet_paths/services.py:366-421 | An edit stores the new values under the same identity and status, one version on; no other record changes. |
| `Requests.FindFollowsTheGraph` | satnet_paths/lifecycle.py:74-165 | `find` reaches a move exactly along an edge of the graph, with the effect on rows that edge has. |
| `Requests.MoveStoresItsStatus` | satnet_paths/lifecycle.py:224-245 | A transition stores the status its edge leads to and the next version, and changes nothing else. |
| `Requests.DecisionStoresItsVerdict` | approvals/services.py:44-122 | Approving puts an allocation on air and rejecting back to planned; one decision row says who did it. |
| `Requests.RevisionStoresWhatWasAsked` | satnet_paths/lifecycle.py:455-514 | Each of code, direction, mode, value, roll-off, guard policy and centre of a successor is the change where one was sent and the predecessor's own otherwise; it runs from the moment given to the end named, in the predecessor's Satnet and group. |
| `Requests.RevisionRetiresItsPredecessor` | satnet_paths/lifecycle.py:448-459 | The predecessor ends at that moment, retired and one version on; nothing else about it, and no other record, changes. |
| `Requests.TransitionSucceedsIff` | satnet_paths/lifecycle.py:194-282 | A transition is accepted exactly for a permitted caller in scope, at the expected version, along an edge that is no decision; planning needs grants that cover the draft and nobody in the way, resuming needs nobody in the way unless suspended allocations keep their spectrum. |
| `Requests.DecideSucceedsIff` | approvals/services.py:44-152 | A decision is accepted exactly from a known, permitted person in scope, at the expected version, on an allocation that waits for one and, where the setting asks for separate approvers, has another author. |
| `Requests.RefusedMoveIsExplained` | satnet_paths/lifecycle.py:248-282 | A move the table refuses is reported as a refused transition; only a leg outside its grant, met by planning, is reported as the database puts it. |
| `Requests.GuardsNameTheirRefusals` | satnet_paths/lifecycle.py:194-493 | The first guard a request fails names its refusal, in the order the services check them. |
| `CloseThenOpen.ReservingFirstNeedsMore` | satnet_paths/services.py:376-380 | Reserving before releasing succeeds exactly when releasing first would succeed and, besides, no new row shares Hz and time with an old holding one. |
| `Previews.PreviewIsCleanIff` | satnet_paths/services.py:124-208 | A preview has no finding exactly when both legs have a grant now, both are mapped, granted and clear of every row in force, and the canonical grant, the Beam and the Satnet cover the period. |
| `Previews.CleanProposalFacts` | satnet_paths/services.py:124-208 | What an accepted proposal has established about grants, parents and legs. |
| `CloseThenOpen.CollisionsAreUnseen` | satnet_paths/services.py:737-833 | Whatever an accepted proposal collides with is not in force now, which is why the preview missed it. |
| `CloseThenOpen.AcceptedProposalIsWrittenIff` | spectrum/services.py:107-170 | The rows of an accepted proposal are written exactly when the translated grant covers the period and no row of another allocation, not in force now, is in the way; a refusal says which. |
| `CloseThenOpen.CleanWriteIsDecided` | satnet_paths/services.py:527-590 | A new record with a clean preview is written exactly when the record passes the path table's constraints and its rows are writable; each kind of refusal has its own cause. |
| `CloseThenOpen.CleanEditIsDecided` | satnet_paths/services.py:398-421 | So for an edit, against the table without the path's own rows: it never loses to itself. |
| `CloseThenOpen.CleanRevisionIsDecided` | satnet_paths/lifecycle.py:455-479 | So for a revision, against the table without its predecessor's rows. |
| `CloseThenOpen.CreateSucceedsIff` | satnet_paths/services.py:261-321 | Creating an allocation that holds spectrum succeeds exactly for a permitted caller in scope with a clean preview, a saveable record and writable rows. |
| `CloseThenOpen.EditSucceedsIff` | satnet_paths/lifecycle.py:338-365 | Editing a planned allocation succeeds exactly so, at its current version. |
| `CloseThenOpen.ReviseSucceedsIff` | satnet_paths/lifecycle.py:409-493 | Revising succeeds exactly for a permitted caller in scope, at the expected version, on an allocation not superseded, cancelled or retired, at a moment after it began, when the successor passes against the table without it. |
| `Acceptance.ComputedRecordPassesIff` | satnet_paths/models.py:196-275 | A record the engine computed passes the CHECKs of its table exactly when it carries a symbol a second, its legs are its direction's, and the typed centre lies on its canonical leg. |
| `Acceptance.OnlyUplinkDirectionsAreStored` | satnet_paths/services.py:612-629 | With a payload that goes up on an uplink and down on a downlink, only a direction typed on its uplink can be stored. |
| `Acceptance.WritableIff` | spectrum/services.py:107-170 | The rows of a clean proposal are written exactly when the translated grant covers the period and no other row shares Hz and period with either leg at any time. |
| `Acceptance.CreationIsAcceptedIff` | satnet_paths/services.py:261-321 | An allocation that holds spectrum is created exactly for a permitted caller in scope with a clean preview, a storable record, a free code, a translated grant that covers the period and no rival at any time. |
| `Acceptance.DraftIsAcceptedIff` | satnet_paths/services.py:299-321 | A draft is created exactly when both legs are granted now, its record can be stored and its code is free, whatever the preview finds. |
| `Acceptance.EditIsAcceptedIff` | satnet_paths/lifecycle.py:338-365 | A planned allocation is edited exactly so, at its current version, against the table without its own rows. |
| `Acceptance.DraftEditIsAcceptedIff` | satnet_paths/services.py:366-421 | A draft is edited exactly as it could be created. |
| `Acceptance.RevisionIsAcceptedIff` | satnet_paths/lifecycle.py:409-493 | An allocation is revised exactly for a permitted caller in scope, at the expected version, when nothing replaces it, it is neither cancelled nor retired, the change comes after it began and names an end, and the successor would be accepted in a table without it. |
| `Acceptance.RefusedCreationSaysWhy` | satnet_paths/services.py:527-590 | A creation with a clean preview is refused as invalid exactly when its record cannot be stored or its code is taken, outside its grant only when the translated grant ends too soon, and as a conflict only when there is a rival. |
| `Acceptance.RefusedRevisionSaysWhy` | satnet_paths/lifecycle.py:461-493 | A revision past its guards likewise, with a conflict called a refused transition. |
| `MoveOutcomes.StatusMovesSucceedIff` | satnet_paths/lifecycle.py:248-282 | Submitting, deciding and suspending are never refused by the table; resuming is refused exactly when suspended allocations give up their spectrum and another row now holds some of it. |
| `MoveOutcomes.PlanSucceedsIff` | satnet_paths/lifecycle.py:257-268 | A draft can be planned exactly when both stored grants are active and cover its period, and every row it asks for is well formed and meets no row already there. |
| `PeriodPromises.AcceptedPeriodsAreInsideTheirParents` | satnet_paths/services.py:709-734 | A non-draft creation, the edit of a planned allocation and a revision are accepted only for a period inside the Satnet's and the Beam's. |
| `PeriodPromises.PlanningAsksNoParent` | satnet_paths/lifecycle.py:257-268 | Planning gives the same answer whatever the Satnets and Beams say. |
| `PeriodPromises.PlannedIsInsideIffItsDraftWas` | satnet_paths/lifecycle.py:257-268 | A planned allocation is inside its parents exactly when its draft was; every accepted plan is accepted just the same under a Satnet that has not opened yet. |
| `PeriodPromises.StepKeepsInsideIff` | satnet_paths/lifecycle.py:194-493 | Only planning can bring in rows outside the Satnet or the Beam, and does exactly when the draft was outside. |
| `PeriodPromises.RunStaysInsideIff` | satnet_paths/lifecycle.py:194-493 | Everything with rows lies inside its Satnet and Beam in every state of a run exactly when every plan the run accepts is of a draft that did. |
| `PeriodPromises.RevisionMeetsItsPredecessor` | satnet_paths/lifecycle.py:437-493 | A revision leaves its predecessor retired, without rows and ending exactly where the successor begins; the successor has its own rows, the next number, no approval, and waits for approval if the predecessor was on air or waiting. |
| `PeriodPromises.EndIsCarriedForwardIff` | satnet_paths/lifecycle.py:456-514 | The end of the predecessor is carried forward exactly when the caller names one or the predecessor already ended at the change. |
| `PeriodPromises.RevisingNeedsAnEnd` | satnet_paths/lifecycle.py:456-514 | A revision is accepted only if the caller says when it ends, and then later than it begins. |
| `DerivedFields.WrittenIsConsistent` | satnet_paths/services.py:481-525 | The fields that creation, edit and revision write are the engine's answer to the inputs they write. |
| `DerivedFields.RunKeepsConsistent` | satnet_paths/services.py:481-525 | In every run, each record's stored figures are what the engine computes from its own inputs. |
| `DerivedFields.StoredLegsAreOneTransmission` | satnet_paths/services.py:481-525 | So in every reachable state the two stored legs are images of each other, contain what they should, and are as wide as the stored bandwidths and guards say. |
| `DerivedFields.StoredFiguresFitTheInputs` | satnet_paths/services.py:481-525 | And the stored rate, bandwidth and guards of every record are those its own inputs call for, inequality by inequality; its uplink stands around the typed centre; each leg is under an active grant of its window. |
| `PathRegistry.Registry.CheckConflicts` | satnet_paths/services.py:737-833 | The walk over the held rows, by allocated start, finds exactly the ones in the way, and the findings in their order. |
| `PathRegistry.Registry.RivalsAmong` | satnet_paths/services.py:792-814 | Its loop keeps every row that shares Hz and period, in order. |
| `PathRegistry.Registry.Findings` | satnet_paths/services.py:188-197 | Containment, then one leg, then the other; empty exactly when the parents cover the period and both legs are clear. |
| `PathRegistry.Registry.Preview` | satnet_paths/services.py:124-208 | The steps of a preview, as creation, edit and revision call it. |
| `PathRegistry.Registry.WriteNew` | satnet_paths/services.py:527-601 | Record and rows are written together or not at all. |
| `PathRegistry.Registry.SaveNew` | satnet_paths/services.py:566-590 | The record is saved before its rows are written, and unsaved when they are refused. |
| `PathRegistry.Registry.Create` | satnet_paths/services.py:261-321 | The checks in their order, then the write. |
| `PathRegistry.Registry.Replace` | satnet_paths/services.py:398-421 | Release, save, reserve; any refusal puts all three back. |
| `PathRegistry.Registry.Rewrite` | satnet_paths/services.py:366-432 | An edit's preview, its refusals, then the writes. |
| `PathRegistry.Registry.Edit` | satnet_paths/lifecycle.py:338-365 | Only drafts and planned allocations, only at the current version. |
| `PathRegistry.Registry.MoveSpectrum` | satnet_paths/lifecycle.py:248-282 | The rows follow the status; conflicts and short grants are reported as refused transitions. |
| `PathRegistry.Registry.ApplyMove` | satnet_paths/lifecycle.py:224-245 | Status, version and rows change in one transaction. |
| `PathRegistry.Registry.Transition` | satnet_paths/lifecycle.py:194-221 | The checks of a transition in their order, then the move. |
| `PathRegistry.Registry.Decide` | approvals/services.py:44-111 | The move and the decision row, together or not at all. |
| `PathRegistry.Registry.Succeed` | satnet_paths/services.py:324-363 | The successor is previewed against the table without its predecessor, then written. |
| `PathRegistry.Registry.Revise` | satnet_paths/lifecycle.py:409-493 | Close, release, open; any refusal undoes all three. |
| `PathRegistry.Registry.Handle` | satnet_paths/lifecycle.py:194-493 | One request is one step of the model and keeps the invariant. |
| `PathRegistry.Registry.HandleAll` | satnet_paths/lifecycle.py:194-493 | A loop of requests is one run of the model, and ends with an exclusive table that is the view of the records. |
| `Versioning.EachInstantHasOneVersion` | inventory/versioning.py:117-140 | From the start of a group's first version, each instant lies in exactly one of its versions; before it, in none. |
| `Versioning.ExactlyTheLastIsOpen` | inventory/versioning.py:225-233 | Version numbers run without a gap, the last version is the only open one, and if active it is the current one. |
| `Versioning.SupersedeSucceedsIff` | inventory/versioning.py:143-186 | Superseding succeeds exactly for an open version and a later moment: neither constraint ever refuses it, neither statement leaves two versions in force at once, and the chain is one longer. |
| `Versioning.SupersedeRefusalIsExplained` | inventory/versioning.py:143-160 | A refusal is of a version that is closed, or of a moment not after its start, and says which. |
| `Versioning.SupersedingOpensTheNext` | inventory/versioning.py:189-213 | The next version carries every column, with the changes on top, and whether it is active; it is open, at its first record version; the version before differs in its end alone. |
| `Versioning.InsertIsDecided` | inventory/models/dependent.py:177-218 | A version is refused exactly for a number its group has, or else for being active while another active version of the group is in force. |
| `Versioning.OpeningFirstIsRefused` | inventory/versioning.py:127-131 | Inserting the successor before closing the predecessor is refused by the overlap constraint, exactly when the version is active. |
| `Versioning.AmendKeepsEngineeringInUse` | inventory/versioning.py:101-114 | An accepted edit of a version in use changes no engineering field. |
| `Versioning.AmendIsDecided` | inventory/services.py:75-156 | An edit in place is refused exactly when it touches engineering columns of a version in use, or else names another version than the stored one; accepted, it changes the columns named and the version, so engineering columns too while nothing refers to it. |
| `Versioning.OpeningStartsAGroup` | inventory/services.py:45-72 | A group is opened once, with what was sent, active and without an end. |
| `Versioning.ReferencesAreCounted` | inventory/versioning.py:96-98 | References are counted up and down and never below none. |
| `Versioning.RunsKeepChains` | inventory/versioning.py:143-213 | In every run of openings, changes and edits each group stays one unbroken chain. |
| `Versioning.EngineeringIsFrozenWhileInUse` | inventory/services.py:75-104 | In any run throughout which something refers to a version, however references come and go, what the version was validated against does not change. |
| `Versioning.VersionTable.CopyForNextVersion` | inventory/versioning.py:189-213 | The loop over the columns carries every field not changed, the next number, and an open period. |
| `Versioning.VersionTable.Supersede` | inventory/versioning.py:143-186 | Both statements or neither. |
| `Versioning.VersionTable.Close` | inventory/versioning.py:162-164 | The predecessor's end is set, or the overlap constraint refuses. |
| `Versioning.VersionTable.Insert` | inventory/models/dependent.py:177-218 | A version is added only with a new number and clear of every active version of its group. |
| `Versioning.VersionTable.Amend` | inventory/services.py:75-104 | The guard, then the write at the expected version. |
| `Locking.EditableRecord.Assign` | inventory/services.py:119-120 | The loop sets each named attribute and no other. |
| `Locking.EditableRecord.Update` | inventory/services.py:106-156 | The row changes exactly when the guard passes and its version is the one named, and then to the next version with the named fields replaced; and what the call leaves in the instance, refused or not. |
| `Locking.WriteIsDecided` | inventory/services.py:75-156 | Exactly when a write is refused and why; that an accepted one changes the named columns of the row, whatever the copy held; and what each outcome leaves in memory. |
| `Locking.LoadReadsTheRow` | inventory/views.py:514-536 | Loading reads the row as it is and disturbs nobody else's copy. |
| `Locking.PlayIsSerial` | inventory/services.py:115-141 | Under every interleaving, the row is the accepted writes one on top of the other, and what each editor last read is the whole record as it stood at its version. |
| `Locking.EachVersionIsWrittenOnce` | inventory/services.py:126-141 | The version has grown by the number of accepted writes, and no two of them were made against one version. |
| `Locking.EachFieldHoldsItsLastWriter` | inventory/services.py:126-141 | Each field holds what the last accepted write to name it put there. |
| `Locking.AcceptedWriteHadSeenEverythingIff` | inventory/services.py:115-141 | The author of an accepted write had read the record as it stood, so that no accepted edit is lost, exactly when the write is made against the version its author read; only the named fields change. |
| `Locking.AcceptedFormsHadSeenEverything` | inventory/views.py:514-536 | So it is for every write from a form, whose instance is read afresh; and the guard was judged on what was stored. |
| `Locking.LeftoverInstanceOverwrites` | inventory/services.py:119-141 | Not so for an instance left by a refused write: a run in which it overwrites an edit unseen. |
| `Locking.RefusedWritesMissedSomething` | inventory/services.py:137-141 | A write refused as stale had been overtaken by an accepted one, or names a version that is not one of the run's. |
| `Conversion.ConversionRoundTrip` | calculations/conversion.py:121-182 | `to_radio` undoes every successful `to_intermediate` exactly when the RF is not below zero, and the width is kept; and the other way round. |
| `Conversion.ProfileIsRefusedIff` | calculations/conversion.py:91-100 | A profile is refused exactly for an oscillator that is not positive or a sideband its rule excludes. |
| `Conversion.DownConversionMovesEveryHz` | calculations/conversion.py:121-182 | A shift takes each Hz down by the LO, or under a fixed offset by the stored offset where there is one, and is refused exactly when an Hz would fall below zero; a reflection takes Hz x to LO - 1 - x and is refused exactly when the interval reaches past the LO. |
| `Conversion.UpConversionMovesEveryHz` | calculations/conversion.py:140-182 | Likewise upwards. |
| `Conversion.UsableMeansCarried` | calculations/conversion.py:204-233 | A profile is usable exactly when its RF limits contain the interval and its IF limits contain what it converts to. |
| `Conversion.RejectionsSayWhy` | calculations/conversion.py:204-233 | Each rejection is there exactly for its reason, and the IF is reported wherever there is one. |
| `Conversion.StringLeIsAlphabetical` | calculations/conversion.py:254-255 | Codes are compared at the first character where they differ. |
| `Conversion.MatchingIsAPermutation` | calculations/conversion.py:236-256 | Every profile is reported exactly as often as it was offered, with its own verdict. |
| `Conversion.MatchesAreRanked` | calculations/conversion.py:236-256 | Usable profiles come first, and each part is ordered by priority and then code. |
| `Conversion.MatchingIgnoresOrder` | calculations/conversion.py:236-256 | With distinct codes the result does not depend on the order the profiles came in. |
| `Conversion.BestProfile` | calculations/conversion.py:259-268 | It returns nothing exactly when no profile is usable; otherwise a usable one that no usable one precedes in priority and then in code. |
| `Witnesses.ForbiddenStatusIsAccepted` | satnet_paths/services.py:299-321 | On an empty table, a creation in any forbidden status is accepted and breaks the invariant. |
| `Witnesses.OddProposalStartsBelowTheGrant` | satnet_paths/services.py:244-247 | On an empty direction 11 Hz are proposed 1 Hz below the grant with a finding, and 10 Hz at its edge with none. |
| `Witnesses.OddProposalForLaterIsClean` | satnet_paths/services.py:244-258 | With a reserve below the gap that ends before the period begins, an odd proposal is clean. |
| `Witnesses.SecondGrantIsProposedAndRefused` | satnet_paths/services.py:632-638 | With too small a lowest grant, a range granted and free in the second is proposed with a finding. |
| `Witnesses.DownlinkDirectionIsNeverStored` | satnet_paths/services.py:612-629 | A direction typed on its downlink: the preview is clean and the creation is refused. |
| `Witnesses.CleanPreviewLosesToTheFuture` | spectrum/selectors.py:57-64 | A clean preview, and a creation refused for a reserve that begins later. |
| `Witnesses.CleanPreviewLosesToAShortGrant` | satnet_paths/services.py:709-724 | A clean preview, and a creation refused because the translated grant ends first. |
| `Witnesses.DraftOutsideItsSatnetIsPlanned` | satnet_paths/lifecycle.py:257-268 | A draft outside its Satnet's period is created, planned, and given rows. |
| `Witnesses.RevisionMustNameItsEnd` | satnet_paths/lifecycle.py:456-514 | A revision that leaves the end alone is refused where the same revision, said not to end, is accepted. |
| `Witnesses.SharedGrantsLoseAnHz` | calculations/gaps.py:128-143 | Two entitlements to the same Hz: free and covered fall short of the total. |
| `Witnesses.BandwidthRoundTripLosesAnHz` | calculations/bandwidth.py:28-62 | 4 Hz at a roll-off of one half come back as 3. |

## Left out

- Identifiers: the original draws random ones; here records are numbered as they are made.
- Permission and scope checks: each request carries their answers. A finding that names whose allocation is in the way depends on scope and is left out with every other message.
- Who may see what, audit events, screens, exports, imports and the importer's own arguments to `create`.
- The stored inversion flag and the label of an equipment profile: no conversion or ranking reads them.
- Gateways, decimators, equipment assignments and descriptive columns of a path: they take no part in the arithmetic or the table.
- A status among the values of an edit: the form does not send one, so an edit keeps the status.
- Two requests at once on one allocation: requests here run one after another, as they do inside their transactions. The deadlock that PostgreSQL turns into a conflict is therefore not modelled.
- A record held in memory after somebody else changed it: each request reads the record it changes.
- Changes to Satnets, Beams, directions, assignments, resources and the two settings during a run of allocations: they stay as they are.
- A direction that is only half configured: a direction here has a payload path and both windows.
- The trap on inexact products: operands from 64-bit columns never reach fifty digits.
- Roll-offs and percentages finer than the three decimals their columns store.
- Utilisation and the other figures that are only displayed.
- `first_applicable`: a scan of at most two policies here, written as one choice.
- Edits of a version's own period or its activation: versions here change by being opened, superseded and corrected, which is what keeps a group one chain.
- Validation of a record's text fields and the uniqueness of a window's code and version within its satellite, which only adds refusals.
- Sorting two lists of matches in place: here sorting returns a list.
- The order of rows that start on the same Hz, which a query does not fix: here it is their order in the table.
