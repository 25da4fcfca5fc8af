# Verified models of the fleet-management pipeline

This Dafny project models the part of the fleet system that turns a map into robot schedules, and
the protocol its processes talk over. `dafny verify dfyconfig.toml` checks everything.

## What is modelled

1. **The map** (`Ast`, `WorldParser`, `WorldRoundTrip`, `Split`, `Graph`, `Layers`, `Routing`, `Apsp`,
   `DistanceMatrix`, `ConfigMatrix`). The world-file parser, the in-place all-pairs shortest path
   computation with its next-hop table, the waypoint distance matrix, and how a matrix of doubles is
   read back as ints.
2. **The two automata networks** (`WaypointNetwork`, `WaypointSafety`, `WaypointTiming`,
   `WaypointTrips`, `StationNetwork`, `StationSafety`, `StationTiming`, `StationTrips`, `StationTour`,
   `StationFirstStop`, with the general queue facts in `QueueLog`). A run is a sequence of states in which each step is one edge, with the receivers of
   its broadcast, or a delay. A step is possible when its guard holds, when it leaves a committed
   location if some process is in one, when every assigned value fits its declared range, and when
   the location invariants hold afterwards. Channel indices are evaluated before the assignments.
   Every run the automata allow is covered, not just the one a strategy would pick. The field `now`
   of a state sums up the delays; no automaton reads it.
3. **The templates as programs** (`FifoArray`, `WaypointProcess`, `StationProcess`). The shifting
   array queue, the loops of the templates and their edges are classes and methods whose contracts
   say that they do to the template's variables what the networks' functions say.
4. **The trace reader and the schedulers** (`Numerals`, `SimulationLines`, `SimulationParser`,
   `SimulationRoundTrip`, `Samples`, `WaypointSchedule`, `WaypointRoute`, `WaypointHolds`,
   `StationSchedule`, `Schedulers`). The report of verifyta is text; it is parsed into expressions with sampled values,
   and the samples are turned into a route or a tour. The theorems go from the text of a report on a
   run back to the choices made in that run.
5. **Station numbers** (`StationIndex`, `StationDistances`, `Ranks`): end stations come first, numbers start at 1, and the
   distance matrix is laid out by ascending waypoint id.
6. **Message framing** (`Framing`, `Connection`): `#|message|#` frames over a byte stream that `recv`
   delivers in arbitrary nonempty pieces of at most 256 bytes.

C++ exceptions are `Failure` values; where the code takes the front of an empty queue, which is
undefined behaviour, the model returns `None`. DBL_MAX is `Inf` and lengths are exact reals. The
nested `std::map`s of the shortest-path result are one map over pairs. `euclidean_distance` and
`std::stod` on a world file are function parameters about which nothing but nonnegativity, for the
first, is assumed; `std::sort` is an insertion sort.

## What the proofs found

Some properties one would expect hold only under a condition. Each is proved as an equivalence with
that condition.

- Framing: a message comes back if and only if it contains no `|#` and does not begin with `#`.
  After a message outside this class the buffer can become malformed for good.
- Station tours: the extracted tour is the chosen one if and only if the first choice is not station
  1, the value the destination variable has before any choice. Otherwise the first stop is missing.
  In terms of the configuration: every run is reported right if and only if `can_visit(1)` is false
  to begin with, or the robot never gets to choose. With end stations this means that some station
  is still to be visited.
- Waypoint routes: the conversion drops exactly two samples of the destination, so it needs just one
  sample before the start edge, followed by -1, and samples to drop. A choice of the waypoint the
  robot is at changes nothing in the traces; it is lost unless it is the first choice and the first
  waypoint is sampled twice. Together these conditions are exact, for every complete run.
- Station distances: the matrix the repository writes covers only waypoints of type station, but the
  index conversion also ranks end stations; and it is read as a whole into ints, which throws for a
  DBL_MAX, after which every lookup returns the largest int. All lookups are right if and only if
  there are no end stations and every two stations are joined, in both directions, by walks whose
  lengths fit an int. On a map of two stations, of which one cannot be reached from the other, even
  the distance from a station to itself is lost.
- Waypoint distances: one edge too long for an int hides all edges from the automata.
- Trace text: an expression printed last, without runs and without a final newline, is lost.
- Station arrivals: `arr[cur_loc]` is evaluated before `cur_loc = dest`, so a robot joins the queue
  of the station it leaves. The safety theorems are about that behaviour.
- Next hops are loop-free even with edges of length zero.
- An adjacency entry that names no waypoint makes the shortest-path computation throw, while the
  distance matrix does not notice it.
- Parsing an adjacency list undoes comma-joining for every list but the empty one.

## Model

| member | source | states |
|---|---|---|
| Apsp.EnterAdjacency | wbt-translator/src/apsp.cpp:46-50 | The edges of one node are entered and no other entry changes; it fails exactly when a neighbour is not on the map |
| Apsp.EnterEdges | wbt-translator/src/apsp.cpp:30-51 | Fails if and only if some adjacency entry is no waypoint; otherwise `dist` and `next` hold exactly the edges of the map |
| Apsp.ClearDiagonal | wbt-translator/src/apsp.cpp:53-57 | Only the diagonal is overwritten, with 0 and the vertex itself, even where a self-loop was entered |
| Apsp.ReadsAreStable | wbt-translator/src/apsp.cpp:61-70 | In the middle of round k, the three entries a relaxation reads still have their values from before the round, so working in place computes the layered recurrence |
| Apsp.Relax | wbt-translator/src/apsp.cpp:64-68 | One relaxation moves the table one position on between layer k and layer k+1, for distances and next hops alike |
| Apsp.AllPairsShortestPath | wbt-translator/src/apsp.cpp:26-74 | Succeeds if and only if ids are 0..n-1 and all neighbours exist; then every entry is the length of some walk and at most that of every walk, or DBL_MAX exactly when there is no walk, and `next` is the next-hop table of TableRoutes |
| Layers.RowAndColumnStable | wbt-translator/src/apsp.cpp:61-70 | Row k and column k do not change in round k |
| Layers.LayerIsAWalk | wbt-translator/src/apsp.cpp:64-66 | Every finite entry after k rounds is the length of a real walk with inner vertices below k |
| Layers.LayerIsMinimal | wbt-translator/src/apsp.cpp:65-66 | No walk with inner vertices below k is shorter than the entry after k rounds |
| Layers.LastLayerIsShortest | wbt-translator/src/apsp.cpp:59-71 | After n rounds the entries are the shortest walk lengths, over walks of any kind |
| Routing.FirstHop | wbt-translator/src/apsp.cpp:67-67 | After every round, the next hop is a real edge, its length plus the rest is exactly the entry, and the rest ranks lower, so routes cannot run in circles |
| Routing.TableRoutes | wbt-translator/src/apsp.cpp:44-70 | `next` is -1 exactly for unreachable pairs; otherwise following it reaches the target over at most n-1 real edges whose lengths sum to the shortest distance, edges of length zero included |
| DistanceMatrix.Construct | wbt-translator/src/distance_matrix.cpp:28-44 | Succeeds if and only if ids are 0..n-1; entries are edge lengths, and -1 exactly where there is no edge |
| ConfigMatrix.Convert | config/src/config.cpp:43-59 | Reading a matrix of doubles as ints gives for every entry the integer next to it on the side of zero, and throws if and only if some entry is DBL_MAX or otherwise outside -2147483648..2147483647 |
| ConfigMatrix.LookUp | config/src/config_wrapper.cpp:292-308 | The entry of the converted matrix, or the error value when the conversion throws or a row or column does not exist |
| DistanceMatrix.GetWaypointDist | config/src/config_wrapper.cpp:384-397 | The same with -1 for errors, for the waypoint matrix |
| DistanceMatrix.ReadableExactly | config/src/config.cpp:25-41 | The waypoint matrix can be read if and only if every edge length is in the range of int |
| DistanceMatrix.GuardReadsEdges | config/src/config_wrapper.cpp:384-397 | The automata read something else than -1 exactly where the map has an edge, if every edge length fits an int; otherwise they see no edge at all |
| DistanceMatrix.RoutesAreWalks | scheduling/waypoint_scheduling.xml:382-390 | The choice sequences the guards allow from next waypoint to destination are exactly the walks of the map that meet the destination only at their end; with an edge too long for an int, only the empty one is left |
| DistanceMatrix.ScheduleIsAWalk | scheduling/src/waypoint_scheduler.cpp:82-143 | The schedule extracted from a complete run is a walk of the map to the destination, at least as long as the shortest-path entry for it |
| WaypointSafety.StepKeepsSafe | scheduling/waypoint_scheduling.xml:60-391 | Every edge and delay keeps the invariant: queues hold exactly the waiting robots, each once, each at its own waypoint, and are empty exactly in Idle |
| WaypointSafety.RunIsSafe | scheduling/waypoint_scheduling.xml:60-391 | The invariant and all location invariants hold in every reachable state |
| WaypointSafety.QueueFits | scheduling/waypoint_scheduling.xml:67-74 | No queue outgrows MAX_ROBOTS, the size of `list` |
| WaypointSafety.ReleaseKeepsSafe | scheduling/waypoint_scheduling.xml:119-158 | The robot released was waiting at this very waypoint and afterwards waits nowhere |
| WaypointSafety.NoBroadcastIsLost | scheduling/waypoint_scheduling.xml:278-284 | In every run each `queue!` is received, where there was room, and each `go!` is taken by the waiting robot it names |
| WaypointTiming.RunIsLog | scheduling/waypoint_scheduling.xml:119-158 | Each waypoint of a run is a queue served no faster than the passing time and no slower than the passing time times the uncertainty |
| WaypointTiming.ServedInOrder | scheduling/waypoint_scheduling.xml:119-158 | The robots released, followed by those queued, are the arrivals in order, at every moment of every run |
| WaypointTiming.ServiceRate | scheduling/waypoint_scheduling.xml:119-158 | Releases by time T times the passing time (of stations at station waypoints, of other waypoints elsewhere) are at most T |
| WaypointTiming.ServiceSpacing | scheduling/waypoint_scheduling.xml:102-158 | Two releases at a station waypoint are at least STATION_PASSING apart, and at any other waypoint at least NON_STATION_PASSING |
| WaypointTiming.StaysPassingTime | scheduling/waypoint_scheduling.xml:119-158 | No robot is released before that passing time has passed since it joined |
| WaypointTiming.WaitingIsBounded | scheduling/waypoint_scheduling.xml:102-158 | A robot that joined at position p0 and is at p has waited at most (p0-p+1) times the waypoint's own passing time times the uncertainty, and never more than MAX_ROBOTS times it |
| WaypointTrips.TripTakes | scheduling/waypoint_scheduling.xml:316-319 | In every run a trip of the scheduled robot takes at least the distance of its edge, and at most that times the uncertainty |
| WaypointTrips.HoldTakes | scheduling/waypoint_scheduling.xml:336-352 | A hold takes exactly one time unit |
| WaypointTrips.CommittedGoFirst | scheduling/waypoint_scheduling.xml:194-340 | No time passes, nothing arrives and nobody is released while a robot starts, chooses, checks its plan or queues up |
| WaypointTrips.VisitedAreMarked | scheduling/waypoint_scheduling.xml:358-381 | `visited` holds exactly the waypoints configured as visited and those the robot has been at |
| WaypointTrips.TotalStopsAtTheEnd | scheduling/waypoint_scheduling.xml:324-327 | `total` is the time at which the robot was done |
| WaypointTrips.OtherTripTakes | scheduling/waypoint_scheduling.xml:196-199 | A trip of another robot takes at least the distance and at most that times the uncertainty |
| WaypointTrips.OtherHoldTakes | scheduling/waypoint_scheduling.xml:217-219 | A hold of another robot takes exactly the value of its plan step |
| WaypointTrips.OtherFollowsPlan | scheduling/waypoint_scheduling.xml:168-305 | In every run another robot queues at exactly the waypoints of its published plan, in order; it stops on an invalid path only where its plan does not begin with a waypoint or follows no edge |
| QueueLog.FirstInFirstOut | scheduling/waypoint_scheduling.xml:70-94 | For any queue history: what left, followed by what is queued, is what was queued first followed by what joined |
| QueueLog.BoundedWaiting | scheduling/waypoint_scheduling.xml:114-117 | For any queue history whose clock stays below a bound while robots wait: the waiting time bound by positions |
| FifoArray.FifoArray.Enqueue | scheduling/waypoint_scheduling.xml:70-74 | The array queue appends |
| FifoArray.FifoArray.Dequeue | scheduling/waypoint_scheduling.xml:76-88 | Shifting the array removes the front and keeps the order of the rest |
| FifoArray.FifoArray.Front | scheduling/waypoint_scheduling.xml:90-94 | `front` is the first element of the abstract queue |
| FifoArray.FifoArray.Tail | scheduling/waypoint_scheduling.xml:96-100 | `tail` is the last element of the abstract queue |
| WaypointProcess.WaypointProcess.PassingTime | scheduling/waypoint_scheduling.xml:102-110 | The loop returns the station passing time exactly for the waypoints of stations, and the other passing time elsewhere |
| WaypointProcess.WaypointProcess.ReceiveQueue | scheduling/waypoint_scheduling.xml:129-148 | The receiving edges of the template do to its variables what the network's step does to the queue |
| WaypointProcess.WaypointProcess.SendGo | scheduling/waypoint_scheduling.xml:119-158 | One of the two releasing edges is enabled exactly when the network may release, and has its effect |
| StationSafety.StepKeepsSafe | scheduling/station_scheduling.xml:94-350 | Every edge and delay keeps the invariant: the queues hold exactly the waiting robots, each in one queue and once |
| StationSafety.RunIsSafe | scheduling/station_scheduling.xml:94-350 | The invariant and all location invariants hold in every reachable state |
| StationSafety.AllStationsListen | scheduling/station_scheduling.xml:304-315 | Whenever a step that does not leave a committed location is possible, every station is in Idle and hears `arr` |
| StationSafety.NoBroadcastIsLost | scheduling/station_scheduling.xml:250-350 | In every run an arriving robot is queued, at the station it leaves, and each `done!` names a waiting robot, never 0, that takes its edge |
| StationTiming.RunIsLog | scheduling/station_scheduling.xml:304-350 | Each station of a run is a queue with the service times of STATION_PASSING_TIME and its uncertainty, across the committed dequeue and idle resets of the clock |
| StationTiming.ServedInOrder | scheduling/station_scheduling.xml:276-350 | First in, first out at every station of every run |
| StationTiming.ServiceRate | scheduling/station_scheduling.xml:331-350 | Robots served by time T times the passing time are at most T |
| StationTiming.WaitingIsBounded | scheduling/station_scheduling.xml:304-350 | The waiting bound by positions, and by MAX_ROBOTS |
| StationTiming.StaysPassingTime | scheduling/station_scheduling.xml:276-350 | No robot is served before STATION_PASSING_TIME has passed since it arrived |
| StationTrips.TripTakes | scheduling/station_scheduling.xml:206-209 | In every run a trip of the scheduled robot takes at least the distance between its stations, and at most that times the uncertainty |
| StationTrips.FirstStationIsReached | scheduling/station_scheduling.xml:217-236 | The robot reaches its first station between its eta and its eta times the uncertainty |
| StationTrips.RobotIsAtLastStop | scheduling/station_scheduling.xml:145-145 | `cur_loc` is the last station reached, and the configured next station before that |
| StationTrips.CommittedGoFirst | scheduling/station_scheduling.xml:308-315 | No time passes, nothing arrives and no service starts while a robot starts or chooses or a station is in a committed location |
| StationTrips.TotalStopsAtTheEnd | scheduling/station_scheduling.xml:213-216 | `total` is the time at which the robot was done |
| StationTrips.OtherTripTakes | scheduling/station_scheduling.xml:127-134 | A trip of another robot takes at least the distance and at most that times the uncertainty |
| StationTrips.OtherFirstStationIsReached | scheduling/station_scheduling.xml:86-113 | Another robot reaches its first station between its own eta and that times the uncertainty |
| StationTrips.OtherFollowsPlan | scheduling/station_scheduling.xml:54-139 | In every run another robot visits exactly the stations of its published plan, in order, and is done at its end |
| StationTour.RunIsOnTour | scheduling/station_scheduling.xml:225-264 | In every run the visited stations are the initial ones and the completed trips; every choice was unvisited when made; an end station is only chosen last and after all others |
| StationTour.FinishedTour | scheduling/station_scheduling.xml:154-188 | A finished robot has made exactly one trip to each station that was still to be visited and then one to an end station |
| StationFirstStop.FirstChoiceIsConfigured | scheduling/station_scheduling.xml:178-193 | The first choice of any run is one that `can_visit` allows for the configured visited stations |
| StationFirstStop.EveryTourBeginsElsewhere | scheduling/station_scheduling.xml:258-264 | With travel times that are not negative: no run chooses station 1 first, if and only if the configuration does not allow it or no run ever gets to choose |
| StationFirstStop.BeginsAtOneWithNothingPending | scheduling/station_scheduling.xml:178-188 | With end stations, all of them unvisited, station 1 may be chosen first exactly when no other station is left to visit |
| StationFirstStop.SomeTourBeginsAtOne | scheduling/station_scheduling.xml:145-146 | A concrete run, on a network of one end station, that chooses station 1 first |
| StationTour.EachTripVisitsOneMore | scheduling/station_scheduling.xml:242-249 | Each completed trip takes exactly one station out of the unvisited ones |
| StationTour.ChooseIsNeverStuck | scheduling/station_scheduling.xml:150-264 | In every run with an end station and travel times that are not negative, a robot in Choose can finish or choose a station, and the step is possible as a whole, invariants included |
| StationProcess.StationProcess.ReceiveArrival | scheduling/station_scheduling.xml:276-329 | The arrival edge of the template does to its variables what the network's step does to the station |
| StationProcess.StationProcess.LeaveCDeQ | scheduling/station_scheduling.xml:331-344 | One of the two edges out of the committed location is taken: the front robot is sent `done` and removed, or, exactly for an empty queue, nothing is sent |
| StationProcess.RobotProcess.AllNonEnd | scheduling/station_scheduling.xml:154-162 | The loop decides that all stations but end stations are visited |
| StationProcess.RobotProcess.EndStationVisited | scheduling/station_scheduling.xml:164-172 | The loop decides that some end station is visited |
| StationProcess.RobotProcess.CanVisit | scheduling/station_scheduling.xml:178-188 | The guard of the choosing edge on the array is the network's guard on the set |
| StationProcess.RobotProcess.MarkVisited | scheduling/station_scheduling.xml:247-247 | Setting one array entry adds one station to the visited set |
| SimulationParser.InputStream.GetLine | scheduling/src/uppaal_simulation_parser.cpp:61-69 | Each read yields the next line of the split text, and leaves the variable alone at the end |
| SimulationParser.ExtractPairs | scheduling/src/uppaal_simulation_parser.cpp:107-113 | Searching pair by pair yields the samples of the whole matched list in order, or out_of_range |
| SimulationRoundTrip.SamplesExactly | scheduling/src/uppaal_simulation_parser.cpp:107-113 | One sample for each pair, with the decimal number that stands in the text as its time, or out_of_range exactly when some value does not fit an int |
| SimulationParser.ParseValue | scheduling/src/uppaal_simulation_parser.cpp:81-124 | Reading a name line and its run lines from the stream has the result, stopping line and remaining lines that the grammar function gives |
| SimulationParser.Parse | scheduling/src/uppaal_simulation_parser.cpp:42-79 | The stream loop computes the expressions of the formula's section, or fails as the section function says |
| SimulationRoundTrip.SectionExactly | scheduling/src/uppaal_simulation_parser.cpp:45-56 | The section of any report runs from the first header of the formula to the first header of the next, to the end when that comes earlier or not at all, and a missing header is out_of_range |
| SimulationLines.PairsMatchBack | scheduling/src/uppaal_simulation_parser.cpp:93-98 | The pair-list pattern recognises exactly the printed pair lists |
| SimulationLines.LineMatchesBack | scheduling/src/uppaal_simulation_parser.cpp:95-95 | A printed run line matches, with its number and its pairs as the groups |
| SimulationLines.GoodNames | scheduling/src/uppaal_simulation_parser.cpp:95-102 | A name line is taken for a run line exactly when the name is digits in brackets |
| SimulationRoundTrip.RunsBack | scheduling/src/uppaal_simulation_parser.cpp:102-121 | Printed runs are read back and the parser stops at the line behind them |
| SimulationRoundTrip.ValuesBack | scheduling/src/uppaal_simulation_parser.cpp:69-78 | Printed expressions are read back, whether the section ends by an empty line or by the end of the text, except for a last one that the end swallows |
| SimulationRoundTrip.ParseUndoesPrint | scheduling/src/uppaal_simulation_parser.cpp:42-124 | A section printed anywhere in a report is parsed to the printed names, run numbers and samples, with times as the decimal numbers printed, if and only if its last expression is not lost at the end of the text |
| SimulationRoundTrip.RunLineExample | scheduling/src/uppaal_simulation_parser.cpp:95-115 | One line in full, with a fraction and a negative value |
| Numerals.NatRoundTrip | scheduling/src/uppaal_simulation_parser.cpp:104-110 | Reading a printed natural number gives it back |
| Numerals.MatchesBack | scheduling/src/uppaal_simulation_parser.cpp:93-98 | The numeral pattern takes a printed numeral whole, sign and fraction included, when nothing that could extend it follows |
| Numerals.ValueIsMeaning | scheduling/src/uppaal_simulation_parser.cpp:109-109 | The value read is the decimal meaning of the text: moving the point one place to the right multiplies it by ten, without a fraction it is the whole number, and the sign negates |
| Numerals.DigitsAreDecimal | scheduling/src/uppaal_simulation_parser.cpp:95-98 | The ten digits have the values 0 to 9 |
| WaypointSchedule.ConvertResult | scheduling/src/waypoint_scheduler.cpp:82-143 | The three queues consumed in lockstep give the recursive extraction, or None exactly where the code reads an empty queue |
| WaypointSchedule.SkipSamples | scheduling/src/waypoint_scheduler.cpp:103-106 | The popping loop stops at the first different sample |
| WaypointSchedule.TakeHold | scheduling/src/waypoint_scheduler.cpp:122-135 | The delay is the number of 1-samples in a row from the first sample on that is at least 0.0001 later than the arrival; exactly these, those before them and the one behind them are used up |
| WaypointSchedule.ShapeAndHolds | scheduling/src/waypoint_scheduler.cpp:90-142 | For any traces the schedule matches (Waypoint Hold?)* with positive holds, and the holds sum to at most the 1-samples of the trace |
| WaypointSchedule.ExtractsRoute | scheduling/src/waypoint_scheduler.cpp:100-120 | When both traces continue with the same reduced values, the loop yields exactly these as waypoints, and its do-while never reads an empty queue |
| WaypointSchedule.ExtractsNoRepeats | scheduling/src/waypoint_scheduler.cpp:102-114 | For any traces, no waypoint is extracted twice in a row |
| WaypointSchedule.ExtractsAtMost | scheduling/src/waypoint_scheduler.cpp:102-120 | For any traces, there are at most as many waypoints as changes in the trace of the current waypoint |
| WaypointHolds.ScheduleFollows | scheduling/src/waypoint_scheduler.cpp:102-140 | For any traces: each waypoint is the next sample of it in the trace of waypoints, and its Hold is what the rest of the hold trace shows from the first sample on that is at least 0.0001 later |
| WaypointHolds.ScheduleHolds | scheduling/src/waypoint_scheduler.cpp:122-139 | If the hold trace shows between any two arrivals that holding is over, each waypoint is followed by a Hold of exactly the 1-samples the whole trace shows right after its arrival, and by none if it shows none |
| WaypointRoute.RunIsOnRoute | scheduling/waypoint_scheduling.xml:353-390 | In every run the choices follow edges of the matrix and `cur_waypoint` and `dest_waypoint` hold the last arrival and the last choice |
| WaypointRoute.ScheduleIsTheRoute | scheduling/src/waypoint_scheduler.cpp:82-143 | On samples of any complete run, self-loop edges included, the schedule is exactly the chosen waypoints, ending at the destination, if and only if the traces show the route: one destination sample before the start, samples to drop, no waypoint chosen again where the robot is, except first with a second sample of it |
| WaypointRoute.ShownWithoutSelfLoops | scheduling/src/waypoint_scheduler.cpp:95-100 | Without edges from a waypoint to itself the condition is that one destination sample precedes the start and the dropped samples exist |
| WaypointRoute.DoubleStartFails | scheduling/src/waypoint_scheduler.cpp:95-120 | With a second sample before the start, the do-while runs into the empty queue |
| StationSchedule.ConvertResult | scheduling/src/station_scheduler.cpp:59-86 | The nested loops give the destination trace without repetitions and without its first value |
| StationSchedule.ScheduleIsTheTour | scheduling/src/station_scheduler.cpp:59-86 | On samples of any run, the schedule is the list of chosen stations in order if and only if the first choice is not station 1; otherwise exactly the first stop is missing |
| Samples.RepeatingIsHarmless | scheduling/src/station_scheduler.cpp:71-75 | Repeating any sample does not change the reduced trace |
| Schedulers.FindsShown | scheduling/src/uppaal_simulation_parser.cpp:25-40 | The lookup by name finds the first run printed under that name |
| Schedulers.FindFirstRunExactly | scheduling/src/uppaal_simulation_parser.cpp:25-40 | The first expression of the name counts; none is an unknown name, and one without runs is out_of_range |
| Schedulers.ScheduleWaypoints | scheduling/src/waypoint_scheduler.cpp:64-80 | Parsing section 2, looking up three traces and converting them, with every failure on the way |
| Schedulers.ScheduleStations | scheduling/src/station_scheduler.cpp:40-57 | The same for the station scheduler and its one trace |
| Schedulers.ReportBecomesRoute | scheduling/src/waypoint_scheduler.cpp:64-143 | From the text of a report on a complete run: the schedule is the route chosen in that run, under the exact condition on the traces |
| Schedulers.ReportBecomesTour | scheduling/src/station_scheduler.cpp:40-86 | From the text of a report on a run: the schedule is the tour chosen in that run, if and only if it does not begin with station 1 |
| Schedulers.ConfiguredReportBecomesTour | scheduling/src/station_scheduler.cpp:40-86 | For a configured network with a station left to visit: the report of every run yields exactly the waypoint ids of the tour |
| StationIndex.IndicesAndIds | config/src/config_wrapper.cpp:168-218 | Station numbers and waypoint ids are converted into each other without loss, and 0 stands exactly for waypoints that are no station |
| StationIndex.ConversionIsInjective | config/src/config_wrapper.cpp:178-190 | Distinct stations are traced as distinct waypoint ids |
| StationIndex.ConvertVisitedStations | config/src/config_wrapper.cpp:237-256 | A station counts as visited exactly when it is neither an end station nor still to be visited |
| StationIndex.ConfiguredTourHasOpenEnd | config/src/config_wrapper.cpp:237-271 | A configuration with an end station meets the condition of the tour theorems, and the tour's pending stations are the stations to visit |
| StationIndex.FirstStopIsConfigured | config/src/config_wrapper.cpp:237-256 | Station 1 may be chosen first exactly when, with end stations, no station is to be visited, and without them, the first station is |
| StationIndex.ConfiguredToursBeginElsewhere | config/src/config_wrapper.cpp:237-256 | With travel times that are not negative: no run of the configured network begins at station 1, and so each is reported right, if and only if a station is left to visit (or, without end stations, the first one is not) or the robot never gets to choose |
| StationIndex.DistIndexConversion | config/src/config_wrapper.cpp:273-290 | Each id is replaced by the number of smaller ids; the exception for a missing id cannot occur |
| StationIndex.ConversionIsPermutation | config/src/config_wrapper.cpp:273-290 | For distinct ids the conversion is a permutation of 0..n-1 |
| StationDistances.GetStationDist | config/src/config_wrapper.cpp:292-308 | Reads the entry at the ranks of the two ids as an int, or returns the largest int when the matrix cannot be read or has no such entry |
| StationDistances.DistancesFound | config/src/config_wrapper.cpp:292-308 | Over a matrix of all combined stations by ascending id: if every entry is in the range of int, every lookup gives the truncated distance of the two waypoints; otherwise every lookup returns the largest int |
| StationDistances.SelectStations | robot/src/orchestrator.cpp:69-79 | The loops select exactly the rows and columns of waypoints of type station, in ascending order |
| StationDistances.AddStationMatrix | robot/src/orchestrator.cpp:62-81 | Fails exactly when the shortest-path computation does; otherwise the matrix holds the shortest distances between the stations by ascending id |
| StationDistances.ConfiguredIds | robot/src/orchestrator.cpp:114-131 | The configured stations are exactly the waypoints of type station, and the end stations exactly those of type end point |
| StationDistances.OwnMatrixWorksExactly | robot/src/orchestrator.cpp:62-81 | With this matrix every lookup gives the truncated shortest distance, if and only if the map has no end station and every two stations are joined in both directions by walks with lengths in the range of int |
| StationDistances.OneWayMapFails | config/src/config_wrapper.cpp:292-308 | On the map of two stations joined one way only, the distance from a station to itself is looked up as the largest int |
| Split.SplitString | util/include/util/split.hpp:26-40 | The loop yields the parts between the delimiters |
| Split.SplitJoin | util/include/util/split.hpp:26-40 | Splitting undoes joining for parts without the delimiter |
| Split.JoinSplit | util/include/util/split.hpp:26-40 | Joining undoes splitting for every string |
| WorldParser.ParseInts | wbt-translator/src/webots_parser.cpp:113-129 | The loop of find and erase reads the numbers between the commas, with the error of the first that is none |
| WorldParser.AdjlistBack | wbt-translator/src/webots_parser.cpp:113-129 | Reading an adjacency list undoes comma-joining for every list of 32-bit integers but the empty one, which is rejected |
| WorldParser.Parser.ParseStream | wbt-translator/src/webots_parser.cpp:40-58 | The token loop has the result, nodes and robot count of the grammar function |
| WorldParser.Parser.ParseWaypoint | wbt-translator/src/webots_parser.cpp:60-97 | The need-flag loop consumes fields until all three are found, or fails on the end of the stream |
| WorldRoundTrip.PiecesBack | wbt-translator/src/webots_parser.cpp:75-92 | A node is read back from its fields in any order with any words between them |
| WorldRoundTrip.WrittenLexes | wbt-translator/src/webots_parser.cpp:22-38 | Words and quoted strings are read back whatever white space stands between them and whatever characters the strings hold, escapes included |
| WorldRoundTrip.StoiReads | wbt-translator/src/webots_parser.cpp:108-123 | What `stoi` makes of any text: space, a sign and digits are read, the rest is ignored, values outside 32 bits and texts without digits are rejected |
| WorldRoundTrip.StoiAllExactly | wbt-translator/src/webots_parser.cpp:118-127 | An adjacency list is rejected with the error of the first part that is no integer |
| WorldRoundTrip.UnfinishedNodeFails | wbt-translator/src/webots_parser.cpp:75-95 | A node that lacks a field at the end of the file makes it malformed |
| WorldRoundTrip.WorldRecovered | wbt-translator/src/webots_parser.cpp:40-129 | A file whose nodes have distinct ids is parsed to exactly its nodes, each under its own id, with the type its keyword stands for and the fields between its braces |
| WorldRoundTrip.WorldKeepsFirst | wbt-translator/src/webots_parser.cpp:40-58 | Of any nodes, those with negative or repeated ids included, the first with each key is kept, and the robots are counted |
| Framing.FindInPrefix | tcp/src/connection.cpp:58-59 | A delimiter found in a prefix is the one found in the whole stream |
| Framing.FirstDelimiter | tcp/src/connection.cpp:58-59 | The first closing delimiter in a frame is its own exactly for transportable messages |
| Framing.RoundTripExactly | tcp/src/connection.cpp:43-72 | Parsing a buffer that begins with a frame returns its message and leaves exactly the rest, if and only if the message has no "\|#" and no leading '#' |
| Framing.ParseExactly | tcp/src/connection.cpp:54-72 | For any buffer: no message without a closing delimiter, malformed exactly when there is one but no opening one in front, and otherwise the buffer begins with the frame of the message, save that `#\|#` takes the whole remainder |
| Framing.PartialFrame | tcp/src/connection.cpp:54-72 | Wherever the stream is cut, nothing is parsed before the frame is complete, and then its message |
| Framing.MalformedForever | tcp/src/connection.cpp:61-64 | No further bytes repair a malformed buffer |
| Connection.Connection.Send | tcp/src/connection.cpp:33-52 | Exactly one frame is appended to the peer's stream, or nothing and an error |
| Connection.Connection.ParseMessage | tcp/src/connection.cpp:54-72 | The method on the buffer in place is the parsing function |
| Connection.Connection.Reassemble | tcp/src/connection.cpp:96-123 | However the bytes arrive, the result is that of parsing a prefix of the stream, and no byte is lost or made up |
| Connection.Connection.Receive | tcp/src/connection.cpp:86-124 | While all messages sent are transportable, delivered frames, buffer and bytes in flight make up the bytes sent, and a blocking call returns the next message in order; for any messages, what a call returns and leaves is that of parsing a prefix of the stream |
| Connection.ReceiveMessages | tcp/src/connection.cpp:74-79 | n blocking calls in a row return exactly the next n messages sent, in order, and after the last message no byte is left over |
| Connection.NextInOrder | tcp/src/connection.cpp:86-124 | In a stream of transportable messages, whatever prefix is parsed yields the next message sent or nothing yet |

## Left out

- Sockets, `recv` returning 0 or an error, short writes, accept and connect, and threads: foreign calls.
- The executor that runs verifyta, strategy synthesis and optimisation: all runs are covered instead.
- Truncated simulations in which the last destination is never reached: the theorems on routes ask
  for complete runs. The conversion itself is modelled for all traces, with None for empty queues.
- The number of time units a Hold stands for: it depends on how samples are rendered, so only sample
  counts are claimed, and a Hold is tied to the samples of the hold trace, not to the hold edges of
  the run. A trace is any list of samples whose values, without repetitions, are those of
  the run.
- SimulationRoundTrip.ParseUndoesPrint: asks that the first header of formula n in the report be the
  one of the section, and likewise for the header that ends it, because the code searches for the
  first occurrence anywhere in the report.
- Rounding of doubles and `sqrt`. The conversion of matrix entries from double to int is modelled, with
  its truncation and its range check, as jsoncpp's `asInt` does it; jsoncpp itself is not part of this
  model.
- WorldRoundTrip.WorldRecovered: leaves the value of a decimal numeral to the C++ library; it is exact in
  the simulation parser.
- The order in which `std::map` is iterated in the shortest-path computation: the results are proved
  for any order.
- Copying the waypoint matrix into the JSON configuration and reading JSON back; `get_eta.q` and its
  extractor; the query template writer.
- The webots controller, lidar, motors, port discovery, order generation, logging and command lines.
