# Logistics onboarding game — a Dafny model of its game logic

The game is a small browser driving game built on React and three.js. The
player drives a delivery van around a grid of roads. Each of four quests opens a
mini-game at a point on the map:

- the morning loading game at the depot;
- the courier game at the delivery locker;
- parcel hand-out at the shop;
- a timed closing quiz back at the depot.

Around the quests, the player picks up packages lying on the roads for points.

This project models the sequential logic inside the game as pure functions over
explicit state records, and proves properties of them with Dafny:

- the road network: the on-road test, the nearest road point, the accept/snap/stay
  policy;
- one frame of the van's speed and heading;
- the held-key record;
- the quest chain, the score counters and the courier PIN;
- the proximity flag with its E-key latch, and which mini-game a location opens;
- the per-frame package pickup;
- the traffic-light cycle;
- the navigator's compass text and progress bar;
- the four mini-games as event-driven state machines.

Geometry is over `real`. Distances are compared through their squares, never
through square roots. `sin`/`cos` of the heading, every `Math.random()` draw,
every shuffle (as a series of swaps) and `Date.now()` readings are inputs.

One module per source file:

| module | file | models |
|---|---|---|
| `RoadSystem` | roads.dfy | src/utils/roadSystem.ts |
| `CarPhysics` | car.dfy | src/components/Car.tsx |
| `CarControls` | controls.dfy | src/hooks/useCarControls.ts |
| `Score` | score.dfy | src/contexts/ScoreContext.tsx |
| `Quests` | quests.dfy | src/contexts/QuestContext.tsx |
| `Interaction` | interaction.dfy | src/hooks/useInteraction.ts |
| `Scene` | scene.dfy | src/components/Scene.tsx |
| `PackageCollector` | collector.dfy | src/components/PackageCollector.tsx |
| `TrafficLight` | traffic_light.dfy | src/components/TrafficLight.tsx |
| `QuestNavigator` | navigator.dfy | src/components/QuestNavigatorUI.tsx |
| `CourierGame` | courier.dfy | src/components/CourierDeliveryGame.tsx |
| `DragDrop` | drag_drop.dfy | the drag-and-drop handlers both loading games share |
| `PackageSorting` | sorting.dfy | src/components/PackageSortingGame.tsx |
| `PackageDelivery` | delivery.dfy | src/components/PackageDeliveryGame.tsx |
| `Quiz` | quiz.dfy | src/components/QuizGame.tsx |

Shared helpers:

- `Geometry`: vectors, clamps and squared distances.
- `Random`: draws in [0, 1) and `Math.floor(Math.random() * n)`.
- `Text`: decimal rendering and parsing, `padStart`, ASCII lower-casing, JavaScript string `<=`.
- `Sequences`: distinctness and shuffles.
- `Optional`.

Each mini-game module defines:

- an `Event` type for what the screen offers;
- `Available`, saying which events the screen offers in a state;
- `Apply` and `Play`, which run events;
- an invariant `Inv`, proved to hold along every run (`PlayKeepsInv`).

## Model

| member | source | states |
|---|---|---|
| RoadSystem.IsOnRoad | src/utils/roadSystem.ts:35-64 | on the road iff some road's rectangle, grown by the tolerance on every side, contains the point; horizontal roads test x along the length and z across the width, vertical roads swap the axes |
| RoadSystem.IsOnRoadFrom | src/utils/roadSystem.ts:36-63 | the loop from road i on answers true iff some road at index i or later holds the point |
| RoadSystem.IsOnRoadMonotone | src/utils/roadSystem.ts:42-58 | a point on the road at tolerance t1 is on the road at every larger tolerance |
| RoadSystem.ClampToRoad | src/utils/roadSystem.ts:75-91 | the clamp into one road lies inside that road's closed rectangle, and a point already inside is left where it is |
| RoadSystem.NearestIndex | src/utils/roadSystem.ts:93-98 | the road the loop keeps is no farther than any road seen, and strictly closer than every earlier one, so ties go to the earliest road |
| RoadSystem.NearestRoadPosition | src/utils/roadSystem.ts:67-102 | with no roads the result is (0, 0); otherwise it is the clamp into some road and no farther from the query than the clamp into any road |
| RoadSystem.NearestIsOnRoad | src/utils/roadSystem.ts:75-98 | for a non-empty list of well-formed roads the nearest position is on the road with tolerance 0 |
| RoadSystem.NearestOfInsidePoint | src/utils/roadSystem.ts:80-101 | a query inside a road rectangle is its own nearest road position |
| RoadSystem.ValidPosition | src/utils/roadSystem.ts:105-122 | a proposal on the road at tolerance 0.3 is kept; the result is always the proposal, the nearest road point or the current position; a snap happens only off the road and only closer than 2 |
| RoadSystem.ValidPositionOffRoad | src/utils/roadSystem.ts:112-121 | off the road, the result is the nearest road point when it is closer than 2, and the current position otherwise |
| RoadSystem.ValidPositionKeepsOnRoad | src/utils/roadSystem.ts:105-122 | a car on the road at tolerance 0.3 is still on the road after any proposal |
| RoadSystem.ValidPositionIdempotent | src/utils/roadSystem.ts:107-109 | a point on the road at any tolerance up to 0.3 is accepted unchanged |
| RoadSystem.RoadsWellFormed | src/utils/roadSystem.ts:12-32 | the fourteen roads of the city grid all have non-negative width and length |
| RoadSystem.EdgeOfRoadAccepted | src/utils/roadSystem.ts:26 | the point (26.5, 0), 1.5 off the centre line of the 6-wide road at x = 25, is on the road at tolerance 0.3, so a proposal there is kept |
| CarPhysics.NewVelocity | src/components/Car.tsx:26-57 | forward never passes 7.5 and from at most 7.5 never slows the van; backward while faster than 0.1 subtracts exactly delta times 12; reversing stays at or above -4; coasting stops a crawl of at most 0.01 dead and otherwise moves towards 0 without crossing it; at most 7.5 stays at most 7.5 |
| CarPhysics.AccelerationFactor | src/components/Car.tsx:32-33 | the throttle factor is never below 0.3 |
| CarPhysics.NewRotation | src/components/Car.tsx:59-71 | the heading changes only above speed 0.5 after the update; left and right together cancel; a single key turns by the rate from the speed before the update, signed by the speed after it |
| CarPhysics.Step | src/components/Car.tsx:15-82 | after a frame both coordinates lie in [-25, 25]; inside the map the van moves exactly by sin/cos of the heading times speed times delta |
| CarPhysics.RunBounded | src/components/Car.tsx:30-57 | from a speed of at most 7.5, any keys and non-negative frame times keep the speed at most 7.5 and the van inside the map on every frame |
| CarPhysics.FromRestBounded | src/components/Car.tsx:12-13 | from the spawn point at rest the van never exceeds 7.5 |
| CarPhysics.ForwardOverridesBackward | src/components/Car.tsx:30-35 | with forward held, pressing backward makes no difference to the frame |
| CarPhysics.TurboIgnored | src/components/Car.tsx:10 | the turbo key makes no difference to the frame |
| CarPhysics.SteeringMirrorsWhenReversing | src/components/Car.tsx:61-71 | mirroring both speeds mirrors the heading change |
| CarPhysics.LeftTurnDirection | src/components/Car.tsx:65-67 | a left turn with positive frame time raises the heading when moving forward and lowers it when reversing |
| CarControls.Binding | src/hooks/useCarControls.ts:14-31 | Shift (exact) binds turbo, and w/s/a/d in either case bind forward/backward/left/right; no other key binds anything |
| CarControls.Set | src/hooks/useCarControls.ts:15-30 | setting one control changes that control and no other |
| CarControls.KeyDown | src/hooks/useCarControls.ts:13-33 | a key-down holds the bound control and leaves every other control as it was; an unbound key changes nothing |
| CarControls.KeyUp | src/hooks/useCarControls.ts:35-55 | a key-up releases the bound control and leaves every other control as it was |
| CarControls.LetterCaseInsensitive | src/hooks/useCarControls.ts:19 | upper- and lower-case letter keys act the same on key-down and key-up |
| CarControls.DownThenUp | src/hooks/useCarControls.ts:13-55 | a key-up undoes the key-down of the same key when its control was not held before |
| CarControls.ApplyAllHeld | src/hooks/useCarControls.ts:13-55 | after any event sequence, each control is held iff the last event bound to it was a key-down |
| CarControls.HeldNeedsPress | src/hooks/useCarControls.ts:4-10 | from the all-released initial record, a control is held only if some event pressed it |
| Score.AddScore | src/contexts/ScoreContext.tsx:34-42 | the total grows by exactly the points; the mini-game counter grows by one iff the flag is set, and the flag defaults to false |
| Score.ResetScore | src/contexts/ScoreContext.tsx:47-53 | total and mini-game counter are zero |
| Score.SetScore | src/contexts/ScoreContext.tsx:58-64 | the total becomes the given score and the mini-game counter is unchanged |
| Score.AddAllSums | src/contexts/ScoreContext.tsx:34-42 | a series of awards adds the sum of their points and counts the flagged ones |
| Score.AddScoreCommutes | src/contexts/ScoreContext.tsx:35-41 | two awards give the same score in either order |
| Score.SetScoreAfterAwards | src/contexts/ScoreContext.tsx:58-64 | setting the score after awards keeps exactly their mini-game count |
| Quests.FindActiveFrom | src/contexts/QuestContext.tsx:91 | `findIndex` returns the first quest neither completed nor locked, or none when there is none |
| Quests.CurrentQuest | src/contexts/QuestContext.tsx:84 | the current quest is the first active quest, or null iff no quest is active |
| Quests.CompleteCurrentQuest | src/contexts/QuestContext.tsx:89-113 | no active quest: nothing changes; otherwise the active quest is completed and the next unlocked, and every other entry, the length and all ids, titles and descriptions are unchanged |
| Quests.InitialChain | src/contexts/QuestContext.tsx:30-59 | the initial quests form a chain at 0: the first active, the rest locked and not completed |
| Quests.CurrentOfChain | src/contexts/QuestContext.tsx:84 | in a chain at k the current quest is quest k, or none once all are completed |
| Quests.CompleteAdvancesChain | src/contexts/QuestContext.tsx:89-113 | completing keeps the shape "completed prefix, one active, rest locked" and moves it one quest on |
| Quests.CompleteTimesChain | src/contexts/QuestContext.tsx:89-113 | n completions move the chain n quests on, stopping at the end |
| Quests.ChainFinishes | src/contexts/QuestContext.tsx:84-113 | one completion per quest completes all four and leaves no current quest |
| Quests.FindById | src/components/Scene.tsx:73-76 | `find` by id returns a quest of the list with that id, or none iff no quest has it |
| Quests.ResetQuests | src/contexts/QuestContext.tsx:118-122 | a reset restores the initial quests exactly (ids, titles, descriptions and flags), which form the chain at quest 1, and clears the PIN |
| Quests.ResetRestartsChain | src/contexts/QuestContext.tsx:118-122 | after a reset the current quest is the first one |
| Quests.GenerateCourierPin | src/contexts/QuestContext.tsx:127-133 | the PIN is four decimal digits, digit i being floor(10 times draw i); it is stored and returned |
| Quests.EveryPinReachable | src/contexts/QuestContext.tsx:127-133 | every four-digit string can come out of the generator |
| Interaction.CheckDistance | src/hooks/useInteraction.ts:32-39 | the proximity flag becomes "distance strictly below the radius" (default 3), and the latch is untouched |
| Interaction.KeyPress | src/hooks/useInteraction.ts:19-25 | 'e' or 'E' latches only when near; every other key changes nothing |
| Interaction.ResetInteraction | src/hooks/useInteraction.ts:41-43 | the latch is cleared and the proximity flag kept |
| Interaction.NearAtTarget | src/hooks/useInteraction.ts:38 | a car at the target is near for every positive radius, and a larger radius never turns near into far |
| Interaction.LatchSurvivesDistance | src/hooks/useInteraction.ts:32-43 | driving away keeps a latched interaction; only a reset clears it |
| Interaction.LatchNeedsNearKey | src/hooks/useInteraction.ts:19-43 | from an unlatched state, a latch after any events needs an E key pressed at a moment when the car was near |
| Scene.CheckAll | src/components/Scene.tsx:39-70 | each of the four points is near iff the car is strictly within the layout's radius of it (the game's layout has radius 3), and the latches are untouched |
| Scene.Dispatch | src/components/Scene.tsx:78-109 | the depot opens sorting iff quest-1 is not completed, else the quiz iff quest-4 is open, never both; the locker opens the courier game iff quest-2 is open, and the shop opens hand-out iff quest-3 is open; those three latches are always reset; the pub opens on proximity alone |
| Scene.PubOnProximity | src/components/Scene.tsx:107-109 | driving within the radius of the pub opens it with no key press |
| Scene.StandardIdsKept | src/contexts/QuestContext.tsx:30-59 | the initial list and every completion keep the ids quest-1 to quest-4 in order |
| Scene.FindStandard | src/components/Scene.tsx:73-76 | with the standard ids, each lookup finds the quest at its position |
| Scene.DispatchFollowsChain | src/components/Scene.tsx:78-104 | along the chain each point opens its game exactly when its quest is current: sorting at 0, courier at 1, shop at 2, quiz at 3 |
| PackageCollector.GenerateRoadPosition | src/components/PackageCollector.tsx:26-45 | height 0.5; along a horizontal road x is in [x - length/2, x + length/2) and z within width/4 of the centre line; a vertical road swaps the axes |
| PackageCollector.GeneratedOnRoad | src/components/PackageCollector.tsx:28-43 | every generated position is on a road with tolerance 0 |
| PackageCollector.PackageIdInjective | src/components/PackageCollector.tsx:94 | distinct indices give distinct ids `package-i` |
| PackageCollector.InitPackages | src/components/PackageCollector.tsx:90-100 | package i has id `package-i`, a generated position and is not collected |
| PackageCollector.InitIdsDistinct | src/components/PackageCollector.tsx:90-100 | the initial ids are pairwise distinct |
| PackageCollector.Scan | src/components/PackageCollector.tsx:110-121 | the frame loop picks each id at most once and only ids not yet being collected: exactly the packages that are pickable |
| PackageCollector.MarkCollected | src/components/PackageCollector.tsx:139-143 | a package is collected afterwards iff it was, or its id is among the picked; ids and positions are unchanged |
| PackageCollector.PickupTick | src/components/PackageCollector.tsx:103-145 | the score grows by exactly the number picked with no mini-game, the picked ids join the collecting set, the picked packages become collected, and a frame picking nothing changes nothing |
| PackageCollector.PickupPerPackage | src/components/PackageCollector.tsx:111-119 | with distinct ids a package is collected after the frame iff it was, or it was uncollected, not being collected and closer than 2 |
| PackageCollector.ActivePackages | src/components/PackageCollector.tsx:148-151 | the active packages are exactly the uncollected ones, and with the collected they make up the list |
| PackageCollector.CollectedCard | src/components/PackageCollector.tsx:148-151 | with distinct ids the collected ids are as many as the collected packages |
| PackageCollector.InitCollector | src/components/PackageCollector.tsx:90-100 | the initial collector satisfies the pickup invariant and every package is active |
| PackageCollector.MarkedCollectedIds | src/components/PackageCollector.tsx:139-143 | marking present ids collected adds exactly those ids to the collected set |
| PackageCollector.PickupKeepsConsistent | src/components/PackageCollector.tsx:111-143 | every frame keeps distinct ids, the collecting set equal to the collected ids, and one point per collected id, so no package counts twice |
| PackageCollector.PointsMatchPackages | src/components/PackageCollector.tsx:129 | under the invariant the points earned equal the collected packages, and with the active ones they add up to the package count |
| PackageCollector.PickupRunBounded | src/components/PackageCollector.tsx:103-145 | over any drive the invariant holds and pickups earn at most one point per package |
| PackageCollector.SceneDriveBounded | src/components/Scene.tsx:159 | with the 14 packages the scene lays out, any drive earns at most 14 points, and points earned plus packages still lying add up to 14 |
| TrafficLight.Duration | src/components/TrafficLight.tsx:25-35 | each light's duration (5, 5, 2 seconds) is positive |
| TrafficLight.Next | src/components/TrafficLight.tsx:26-35 | the next light always differs |
| TrafficLight.Initial | src/components/TrafficLight.tsx:14-20 | a light starts with no time spent, red by default |
| TrafficLight.Tick | src/components/TrafficLight.tsx:22-35 | at most one switch per frame, to the next light in the cycle, exactly when the accumulated time strictly exceeds the duration; a switch restarts the time at 0, otherwise time grows by delta |
| TrafficLight.CycleOfThree | src/components/TrafficLight.tsx:26-35 | red, green, yellow is a cycle of exactly three |
| TrafficLight.TickKeepsValid | src/components/TrafficLight.tsx:22-35 | with non-negative frame time the time spent stays within [0, duration] |
| TrafficLight.LongFrameSwitches | src/components/TrafficLight.tsx:26-35 | a frame longer than the duration always switches |
| TrafficLight.RunFollowsCycle | src/components/TrafficLight.tsx:22-35 | after n frames the light is the start advanced along the cycle by at most n steps, and the time is still valid |
| TrafficLight.Intensities | src/components/TrafficLight.tsx:38-52 | the lamp of the current light is at 1.5 and the other two at 0 |
| TrafficLight.OneLampLit | src/components/TrafficLight.tsx:38-52 | exactly one lamp is lit, so the lamps determine the light |
| QuestNavigator.CompassDirection | src/components/QuestNavigatorUI.tsx:38-55 | the text is one of N, S, E, W, NE, NW, SE, SW; when dz dominates, the first letter is S for positive dz, else N, and E/W follows only beyond 10; otherwise, ties included, it ends with E for positive dx, else W, with S/N before it only beyond 10 |
| QuestNavigator.Pair | src/components/QuestNavigatorUI.tsx:47-53 | a two-letter text is the north/south letter followed by the east/west one |
| QuestNavigator.OppositeDirection | src/components/QuestNavigatorUI.tsx:43-55 | with both offsets non-zero, turning round reverses every letter |
| QuestNavigator.AtTargetReadsWest | src/components/QuestNavigatorUI.tsx:49-51 | dx = dz = 0 reads "W" |
| QuestNavigator.ProgressWidth | src/components/QuestNavigatorUI.tsx:97 | the bar width is in [0, 100], and equals 100 minus the distance for distances up to 100 |
| QuestNavigator.ProgressMonotone | src/components/QuestNavigatorUI.tsx:97 | the bar never grows as the distance grows |
| QuestNavigator.QuestLocation | src/components/QuestNavigatorUI.tsx:11-15 | only quests 1 to 3 have a location |
| QuestNavigator.LocationsMatchScene | src/components/QuestNavigatorUI.tsx:11-15 | the locations are the depot, locker and shop where the scene opens their games; quest-4 has none |
| QuestNavigator.ShownAlongChain | src/components/QuestNavigatorUI.tsx:64-66 | along the chain the navigator shows for quests 1 to 3 and not for the quiz or after the end |
| CourierGame.Rank | src/components/CourierDeliveryGame.tsx:10 | the five screens are ranked 0 to 4 |
| CourierGame.NewGame | src/components/CourierDeliveryGame.tsx:17-33 | a fresh game shows the story with empty inputs, no error, and a 14-digit parcel number drawn digit by digit |
| CourierGame.DropLast | src/components/CourierDeliveryGame.tsx:52 | `slice(0, -1)` drops the last character and keeps an empty input empty |
| CourierGame.LockerNumber | src/components/CourierDeliveryGame.tsx:126 | a draw in [0, 1) opens a locker numbered 1 to 9 |
| CourierGame.StartGame | src/components/CourierDeliveryGame.tsx:89-91 | the PIN screen follows the story; nothing else changes |
| CourierGame.SubmitPin | src/components/CourierDeliveryGame.tsx:112-119 | the PIN 1234 clears the error and opens the parcel screen; any other PIN sets the PIN error and stays |
| CourierGame.SubmitParcel | src/components/CourierDeliveryGame.tsx:122-132 | the right parcel number clears the error, opens a drawn locker and moves to the locker screen; a wrong one sets the parcel error and stays |
| CourierGame.Append | src/components/CourierDeliveryGame.tsx:94-100 | a digit is appended only to the current step's input and only below 4 (PIN) or 14 (parcel) characters |
| CourierGame.Backspace | src/components/CourierDeliveryGame.tsx:103-109 | backspace drops the last character of the current step's input only |
| CourierGame.KeyDown | src/components/CourierDeliveryGame.tsx:37-82 | keys are ignored while an error shows and off the input screens; a key in '0'..'9' types, Backspace erases, Enter submits only a complete input, and other keys do nothing |
| CourierGame.CloseLocker | src/components/CourierDeliveryGame.tsx:135-146 | 50 points with the mini-game flag; the quest chain advances only when the current quest is quest-2; the result screen follows |
| CourierGame.Retry | src/components/CourierDeliveryGame.tsx:149-157 | retry clears only the input the error is about, and the error |
| CourierGame.StepOrder | src/components/CourierDeliveryGame.tsx:89-146 | every offered event keeps the screen or moves it exactly one on: storytelling, PIN, parcel, locker, result |
| CourierGame.ApplyKeepsInv | src/components/CourierDeliveryGame.tsx:37-157 | every offered event keeps inputs all digits and within 4 and 14, errors on their own screens, a locker in 1..9 once open, and 50 points awarded exactly on the result screen |
| CourierGame.InitInv | src/components/CourierDeliveryGame.tsx:17-33 | a fresh game satisfies the invariant |
| CourierGame.AppendKeepsInv | src/components/CourierDeliveryGame.tsx:44-47 | typing a digit keeps the inputs digits within their limits |
| CourierGame.BackspaceKeepsInv | src/components/CourierDeliveryGame.tsx:51-53 | erasing keeps the invariant |
| CourierGame.PlayKeepsInv | src/components/CourierDeliveryGame.tsx:37-157 | any run of offered events keeps the invariant |
| CourierGame.DeliveryPaysOnce | src/components/CourierDeliveryGame.tsx:135-146 | one game adds 50 points and one mini-game exactly when it reaches the result screen, and otherwise leaves the score alone |
| CourierGame.CloseAdvancesQuestTwo | src/components/CourierDeliveryGame.tsx:140-143 | closing moves the chain on iff the current quest is quest-2 |
| CourierGame.CorrectPinOpensParcel | src/components/CourierDeliveryGame.tsx:13 | typing 1, 2, 3, 4 and confirming opens the parcel screen |
| DragDrop.Without | src/components/PackageSortingGame.tsx:76 | the filter keeps exactly the packages with another id, and never lengthens the list |
| DragDrop.WithoutOne | src/components/PackageSortingGame.tsx:86 | with unique ids, filtering out a present package removes exactly that package |
| DragDrop.WithoutNone | src/components/PackageDeliveryGame.tsx:75 | filtering out an absent id changes nothing |
| DragDrop.DragStart | src/components/PackageSortingGame.tsx:62-64 | the held package and its flag are recorded, and the lists are unchanged |
| DragDrop.DropToTarget | src/components/PackageSortingGame.tsx:70-79 | only a package held with the flag false is taken, and only below the cap; a full list leaves both lists as they were and lets go of the package |
| DragDrop.DropToSource | src/components/PackageSortingGame.tsx:81-88 | only a package held with the flag true goes back, appended to the first list and filtered out of the capped one |
| DragDrop.GestureConserves | src/components/PackageDeliveryGame.tsx:69-87 | every gesture keeps ids unique and the cap respected and conserves the multiset of packages; it moves a package over only from the first list with room, back only from the capped list, and otherwise changes neither list |
| DragDrop.MoveOverConserves | src/components/PackageSortingGame.tsx:74-76 | an accepted move over keeps unique ids, the cap, and the packages |
| DragDrop.MoveBackConserves | src/components/PackageSortingGame.tsx:85-86 | an accepted move back keeps unique ids, the cap, and the packages |
| DragDrop.FullTargetRefuses | src/components/PackageDeliveryGame.tsx:73-77 | a full capped list refuses every drop |
| DragDrop.UniqueOfSameMultiset | src/components/PackageSortingGame.tsx:58 | rearranging packages keeps their ids unique |
| DragDrop.SplitUnique | src/components/PackageSortingGame.tsx:74-76 | unique ids over both lists are unique in each |
| PackageSorting.CorrectRouteCount | src/components/PackageSortingGame.tsx:39 | 4 to 6 packages carry the assigned route |
| PackageSorting.OtherRoutes | src/components/PackageSortingGame.tsx:49 | four other routes |
| PackageSorting.OtherRoutesFilter | src/components/PackageSortingGame.tsx:49 | the table equals `ROUTES.filter(r => r !== route)` |
| PackageSorting.OtherRoutesAll | src/components/PackageSortingGame.tsx:49 | the other routes are exactly the routes different from the assigned one |
| PackageSorting.OtherRoute | src/components/PackageSortingGame.tsx:50 | a drawn other route differs from the assigned one |
| PackageSorting.Unsorted | src/components/PackageSortingGame.tsx:36-55 | twelve packages: the first `count` on the assigned route, the rest on drawn other routes, package i numbered by the clock plus i |
| PackageSorting.DealRound | src/components/PackageSortingGame.tsx:28-60 | a round deals twelve packages |
| PackageSorting.CountRoute | src/components/PackageSortingGame.tsx:99 | the count never exceeds the list length |
| PackageSorting.CountRouteIsSize | src/components/PackageSortingGame.tsx:99 | counting from position k on gives the number of positions from k on whose package carries the route |
| PackageSorting.CountConcat | src/components/PackageSortingGame.tsx:99 | counting is additive over concatenation |
| PackageSorting.CountExtremes | src/components/PackageSortingGame.tsx:99 | the count is the full length iff every package has the route, and 0 iff none does |
| PackageSorting.CountRemove | src/components/PackageSortingGame.tsx:99 | taking one package out takes its share out of the count |
| PackageSorting.RemoveMultiset | src/components/PackageSortingGame.tsx:76 | removing index k removes exactly that element from the multiset |
| PackageSorting.CountOfSameMultiset | src/components/PackageSortingGame.tsx:58 | shuffling or moving packages does not change the route count |
| PackageSorting.UnsortedUnique | src/components/PackageSortingGame.tsx:113-129 | with a clock that never runs backwards the package ids are unique, in the first round and on replay |
| PackageSorting.UnsortedCount | src/components/PackageSortingGame.tsx:38-55 | exactly `count` unshuffled packages carry the assigned route |
| PackageSorting.DealShape | src/components/PackageSortingGame.tsx:28-60 | a dealt round has unique ids and 4 to 6 of its twelve packages on the assigned route |
| PackageSorting.StartGame | src/components/PackageSortingGame.tsx:90-96 | start and skip both open the game with packages and route unchanged |
| PackageSorting.CheckResult | src/components/PackageSortingGame.tsx:98-103 | the count shown is the number of positions in the van holding a package on the assigned route, so at most the van size; the game is marked as played |
| PackageSorting.PlayAgain | src/components/PackageSortingGame.tsx:105-133 | a replay returns to the story with an empty van, keeping the count, the played flag and the held package |
| PackageSorting.GradeBands | src/components/PackageSortingGame.tsx:281-298 | with at most four checked: success iff 4 right, partial iff 2 or 3, fail iff fewer than 2 |
| PackageSorting.NewGameInv | src/components/PackageSortingGame.tsx:28-60 | the first round satisfies the invariant and starts on the story |
| PackageSorting.ApplyKeepsInv | src/components/PackageSortingGame.tsx:62-133 | every offered event keeps the invariant: twelve packages with unique ids between warehouse and van, at most 4 in the van, 4 to 6 on the route, and a count of at most 4 |
| PackageSorting.PlayKeepsInv | src/components/PackageSortingGame.tsx:62-133 | any run of offered events keeps the invariant |
| PackageSorting.CheckGrades | src/components/PackageSortingGame.tsx:258 | the check is offered with exactly four in the van, so success means every loaded package is on the assigned route |
| PackageDelivery.AllNumbers | src/components/PackageDeliveryGame.tsx:42 | the numbers 1 to 50 in order |
| PackageDelivery.Numbers | src/components/PackageDeliveryGame.tsx:56 | the package numbers, position by position |
| PackageDelivery.ShuffledNumbers | src/components/PackageDeliveryGame.tsx:42-43 | the shuffled numbers are distinct and all in 1..50 |
| PackageDelivery.DealPackages | src/components/PackageDeliveryGame.tsx:41-51 | twenty packages with ids 0 to 19 and pairwise distinct numbers from 1..50 |
| PackageDelivery.DealRequired | src/components/PackageDeliveryGame.tsx:56-58 | five wanted numbers, distinct when the package numbers are, each carried by a package |
| PackageDelivery.NewGame | src/components/PackageDeliveryGame.tsx:27-59 | a fresh game starts on the story with an empty counter, not yet played |
| PackageDelivery.StartGame | src/components/PackageDeliveryGame.tsx:89-91 | the game opens with packages and wanted numbers unchanged |
| PackageDelivery.CountRequired | src/components/PackageDeliveryGame.tsx:95-98 | the count never exceeds the counter |
| PackageDelivery.CountRequiredIsSize | src/components/PackageDeliveryGame.tsx:95-98 | counting from position k on gives the number of positions from k on whose number is wanted |
| PackageDelivery.Finish | src/components/PackageDeliveryGame.tsx:93-114 | the count is the number of positions on the counter holding a wanted number; points are 20 per wanted package on the counter, added without the mini-game flag; the current quest, whichever it is, is completed iff all five are right |
| PackageDelivery.PlayAgain | src/components/PackageDeliveryGame.tsx:116-142 | a replay goes straight to the game with an empty counter, count and points cleared, and the played flag set |
| PackageDelivery.DealUnique | src/components/PackageDeliveryGame.tsx:41-51 | dealt packages have unique ids and unique numbers |
| PackageDelivery.DealRequiredCarried | src/components/PackageDeliveryGame.tsx:56-58 | every wanted number is carried by some package |
| PackageDelivery.DealInv | src/components/PackageDeliveryGame.tsx:39-59 | a dealt round satisfies the invariant |
| PackageDelivery.NewGameInv | src/components/PackageDeliveryGame.tsx:39-59 | the first round satisfies the invariant |
| PackageDelivery.MoveKeepsInv | src/components/PackageDeliveryGame.tsx:69-87 | a move keeps twenty packages with unique ids and numbers, at most five on the counter, and every wanted number carried |
| PackageDelivery.ApplyKeepsInv | src/components/PackageDeliveryGame.tsx:61-142 | every offered event keeps the invariant, including points equal to 20 times the count |
| PackageDelivery.PlayKeepsInv | src/components/PackageDeliveryGame.tsx:61-142 | any run of offered events keeps the invariant |
| PackageDelivery.CountRequiredAll | src/components/PackageDeliveryGame.tsx:95-98 | the count is the whole counter iff every number on it is wanted |
| PackageDelivery.NumberCount | src/components/PackageDeliveryGame.tsx:56 | distinct packages with distinct numbers have as many numbers as packages |
| PackageDelivery.SubsetSameSize | src/components/PackageDeliveryGame.tsx:109 | a subset of the same size is the whole set |
| PackageDelivery.FinishExact | src/components/PackageDeliveryGame.tsx:248 | with finishing offered only for a non-empty counter, all five right iff the numbers on the counter are exactly the wanted ones |
| Quiz.At | src/components/QuizGame.tsx:147 | an answer reads as chosen iff it lies within the array and is not a hole or `undefined` |
| Quiz.Spread | src/components/QuizGame.tsx:87 | the spread copy keeps the length and turns holes into `undefined` |
| Quiz.Holes | src/components/QuizGame.tsx:88 | n holes |
| Quiz.SetAnswer | src/components/QuizGame.tsx:86-90 | the option is written at the current question; other cells are copied with holes made `undefined`; writing past the end leaves holes between |
| Quiz.SetAnswerReads | src/components/QuizGame.tsx:86-90 | afterwards the current question reads the option and every other question reads what it read before |
| Quiz.CountCorrect | src/components/QuizGame.tsx:112-117 | at most one right answer per question counted |
| Quiz.CountCorrectIsSize | src/components/QuizGame.tsx:112-117 | the count over the first k questions is the number of those questions whose answer reads as their key |
| Quiz.CountCorrectExtremes | src/components/QuizGame.tsx:112-117 | all right iff every question reads its key, none right iff none does |
| Quiz.TimeBonusExact | src/components/QuizGame.tsx:125 | for whole seconds up to 60 the rounded bonus is (5t + 3) div 6, which lies in 0..50 |
| Quiz.TimeBonusMonotone | src/components/QuizGame.tsx:123-125 | more time left never gives a smaller bonus |
| Quiz.SmallRendering | src/components/QuizGame.tsx:142-143 | seconds below 60 render with one or two digits |
| Quiz.FormatTimeRoundTrip | src/components/QuizGame.tsx:140-144 | the clock text has a colon and two-digit seconds and parses back to the number of seconds shown |
| Quiz.FormatTimeInjective | src/components/QuizGame.tsx:140-144 | distinct times show different clock texts |
| Quiz.OneBand | src/components/QuizGame.tsx:303-322 | for 0 to 5 right exactly one message shows; perfect iff 5, poor iff fewer than 3 |
| Quiz.StartQuiz | src/components/QuizGame.tsx:80-83 | the quiz opens with index, answers and clock unchanged |
| Quiz.QuizEnd | src/components/QuizGame.tsx:110-137 | the count shown is the number of the five questions whose answer reads as their key; points are 20 per right answer plus the time bonus, added without the mini-game flag; the quest advances only if the current quest is quest-4; the result screen follows |
| Quiz.Tick | src/components/QuizGame.tsx:65-73 | at 1 second or less the quiz ends and the clock shows 0; otherwise one second goes; the clock never rises |
| Quiz.NextQuestion | src/components/QuizGame.tsx:93-100 | next advances the index below the last question and ends the quiz at the last |
| Quiz.PrevQuestion | src/components/QuizGame.tsx:103-107 | prev steps back only above question 0 and changes nothing else |
| Quiz.InitialInv | src/components/QuizGame.tsx:51-57 | the initial quiz satisfies the invariant |
| Quiz.QuizEndKeepsInv | src/components/QuizGame.tsx:110-137 | ending keeps at most 5 right and points within 0..150 |
| Quiz.ApplyKeepsInv | src/components/QuizGame.tsx:62-241 | every offered event, finishing under the condition as written included, keeps the index in 0..4 (dots included), the clock in 0..60, answers within five questions and three options, and points in 0..150 |
| Quiz.PlayKeepsInv | src/components/QuizGame.tsx:62-241 | any run of offered events, early finishes included, keeps the invariant |
| Quiz.AllAnsweredMeansEveryDot | src/components/QuizGame.tsx:148-149 | the corrected finish condition holds iff every one of the five questions reads as answered |
| Quiz.AsWrittenFinishesEarly | src/components/QuizGame.tsx:148-149 | start, the fifth dot and one option satisfy the condition as written while the first question is unanswered; the finish button is then offered, and finishing counts at most one right answer |
| Random.RandomIndex | src/components/PackageCollector.tsx:28 | `Math.floor(u * n)` for u in [0, 1) is an index below n |
| Random.RandomIndexOnto | src/components/PackageSortingGame.tsx:31 | every index below n is drawn by some u in [0, 1) |
| Text.ParseNatToString | src/contexts/QuestContext.tsx:128-130 | the decimal rendering of a number parses back to it |
| Text.NatToStringInjective | src/components/PackageCollector.tsx:94 | distinct numbers render differently |
| Text.ParsePadStart2 | src/components/QuizGame.tsx:143 | zero padding to two characters keeps the value |
| Text.DigitString | src/contexts/QuestContext.tsx:128-130 | one digit per draw, each floor(10 times the draw) |
| Text.DigitStringOnto | src/contexts/QuestContext.tsx:128-130 | every digit string is drawn by some draws |
| Text.LowerAscii | src/hooks/useCarControls.ts:19 | lower-casing keeps length and lowers exactly the ASCII capitals |
| Text.DigitRangeShape | src/components/CourierDeliveryGame.tsx:44 | a key in the string range '0'..'9' starts with a digit, and a one-character key is in range iff it is a digit |
| Geometry.Clamp | src/components/Car.tsx:80-81 | `Math.max(lo, Math.min(hi, v))` lies in [lo, hi], keeps a value inside, and takes the nearer bound outside |
| Geometry.SqStrictMonotone | src/utils/roadSystem.ts:93-95 | for non-negative numbers, comparing squares orders them as comparing the numbers does |
| Geometry.WithinMonotone | src/hooks/useInteraction.ts:36-38 | the distance test is symmetric and grows with the radius |
| Sequences.Shuffle | src/components/PackageDeliveryGame.tsx:43 | a shuffle keeps the length and the multiset, and keeps distinct elements distinct |
| Sequences.NoDupOfSameMultiset | src/components/PackageDeliveryGame.tsx:57 | rearranging never creates or removes a duplicate |

## Left out

- Rendering, meshes, lights, CSS, overlays and modals are not modelled; they have no behaviour beyond layout. The pure display components are left out entirely, as are NPC cars, pedestrians and the airplane. NPC and pedestrian routes are cosmetic per-frame interpolation.
- `localStorage` persistence, JSON fallbacks, `Date.now()` time stamps (`lastUpdated`, the quiz's `quizStartTime`, which is never read), `window.confirm`/`reload` and the Web Audio plink are I/O.
  - In the sorting game's replay, `Date.now()` readings are an input clock that never runs backwards.
- `Math.random()` and `sort(() => Math.random() - 0.5)` are inputs. Draws are reals in [0, 1); a shuffle is a series of swaps, and every permutation is such a series. The model says nothing about the distribution.
- `Math.sqrt`, `Math.sin`, `Math.cos`: distances are compared through their squares, and sin/cos of the heading are step inputs.
- The navigator's rounded distance (`Math.round(dist)`) is an input of `QuestNavigator.ProgressWidth`.
- Floating point: every quantity is an exact real or integer. Rounding of IEEE doubles is not modelled.
- React scheduling is not modelled: batching, listener registration, StrictMode double invocation, and stale closures. Each handler is one atomic transition on the current state.
  - The quiz timer calls `handleQuizEnd` from the closure of the render that started it. `Quiz.Tick` instead ends the quiz with the current answers and the remaining second.
- `Text.LowerAscii`: lower-cases ASCII letters only. JavaScript's `toLowerCase` also lowers other letters, but no other character lowers to w, s, a or d, so the binding is the same.
- Behaviour the source does not have is not modelled:
  - the van never calls the road constraint;
  - it reads no turbo key;
  - it has no collision speed penalty;
  - its clamp is ±25;
  - it has no reset, since the prop the scene passes is only spread onto the group.
  - The road functions are modelled as the library they are.
- The courier game accepts the fixed PIN 1234, not the PIN the quest context generates. Both are modelled as written.
- The `selected` field of the hand-out game's packages is never read.
- The sorting game's `handleDragOver` and the delivery game's only prevent the browser default.
- Drops are modelled only as the second half of a gesture that began with a drag start on a listed package (`DragDrop.Perform`, `PackageSorting.Event.Move`, `PackageDelivery.Event.Move`). In the source a drop handler runs for any drop on its zone (PackageSortingGame.tsx:70-88, PackageDeliveryGame.tsx:69-87), and nothing clears the held package when a drag ends elsewhere. A drop refused by its guard leaves the package held too, and so does `handlePlayAgain`. A drop with no drag start of its own, such as text dragged in from outside the page, would therefore move a package that is stale or from the previous round: after a replay the sorting game could hold 13 packages, one of them from the round before. The model does not promise package conservation for such drops.
- Scene layout constants other than the four interaction points are not modelled.
- The debug panel, which can complete quests and set the score, is not modelled; only the context operations it calls are.

## Findings

| source | as written | input that shows it | evidently intended | confidence | as-written member | corrected member |
|---|---|---|---|---|---|---|
| src/components/QuizGame.tsx:148-149 | `selectedAnswers.length === 5 && selectedAnswers.every(a => a !== undefined)`; `handleAnswerSelect` (lines 86-90) writes at the current index of a sparse array, and `every` skips holes | start the quiz, click the fifth dot (line 241), choose option A: the array is `[hole ×4, 0]`, so the finish button is enabled with questions 1-4 unanswered | finish is enabled only when all five questions have an answer | not executed | Quiz.AsWrittenFinishesEarly | Quiz.AllAnsweredMeansEveryDot |

The quiz's event machine (`Quiz.Available`) offers the finish button under the condition as written, so `Quiz.ApplyKeepsInv` and `Quiz.PlayKeepsInv` cover early finishes too. `Quiz.AllAnswered` is the corrected condition, and `Quiz.AllAnsweredMeansEveryDot` characterises it.
