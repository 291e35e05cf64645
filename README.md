# DFHack job list and map brushes, modelled in Dafny

This project models two parts of DFHack.

The first is the job-list logic of the Job module (`library/modules/Job.cpp`):

- `cloneJobStruct` makes a free-floating copy of a job. It clears the
  transient fields, keeps only the `repeat` and `suspend` flags, drops the
  unit-worker references and copies the other references and the job items.
- `deleteJobStruct` frees a free-floating job.
- The two `operator==` overloads compare job items and jobs.
- `getJobHolder` finds the building that holds a job.
- `linkJobIntoWorld` links a job into the world's job list. It either
  appends the job under a fresh id taken from `job_next_id`, or inserts it
  into the id-sorted list and refuses a duplicate id.

The second is the map brushes (`plugins/Brushes.h`).
Each brush turns a start coordinate into the list of map coordinates a tool
acts on:

- the rectangle brush: a 3-D box around a centre tile;
- the block brush: the 16×16 map block holding the start;
- the column brush: an upward walk through passable tiles;
- the flood brush: a depth-first flood fill over water tiles, with a work
  stack and a `seen` set.

Modules:

- `Optional` (`optional.dfy`) holds the `Option` type used for null pointers.
- `Jobs` (`jobs.dfy`) models the Job module.
  - Jobs, job items and references are datatypes.
  - The world's globals are the class `World`. Its field `jobList` is the
    chain of list links after the sentinel head `world->job_list`. Its field
    `jobNextId` is `*job_next_id`.
- `MapModel` (`mapcache.dfy`) holds coordinates and what the brushes read
  from a `MapCache`. Integer division `/` follows C++ and truncates toward
  zero.
- `Brushes` (`brushes.dfy`) holds the four brushes. `RectangleBrush` is a
  class with the six fields its constructor assigns.

The loops of the source are `while` loops here, each with its invariants.
This applies to the backward reference loop of `cloneJobStruct`, the backward
loops of `deleteJobStruct`,
the comparison loops, the `ins_pos` walk, the nested loops of the brushes,
the column walk and the flood loop. Each method is specified against the
property the source promises. The lemmas relate these to each other: the
clone equals its original, cloning twice is cloning once, the clone keeps
the holder, insertion keeps the list sorted, and the flood result is closed
under the brush's steps.

## Model

| member | source | states |
|---|---|---|
| Jobs.CloneFlags | library/modules/Job.cpp:60-62 | bit `b` of the clone's flags is set exactly when `b` is the repeat or suspend bit and bit `b` of the original's flags is set |
| Jobs.CloneJobStruct | library/modules/Job.cpp:55-85 | the clone keeps only the repeat and suspend bits; it has no list link and a completion timer of -1; its items and misc links are empty; its references are the original's without unit-worker references, in order; its job items equal the original's; it is equal to the original under job equality |
| Jobs.EraseUnitWorkers | library/modules/Job.cpp:70-78 | the backward loop that erases unit-worker references in place leaves exactly `WithoutWorkers` of the original references, whose members and order `WithoutWorkersMembers` and `WithoutWorkersAppend` give |
| Jobs.WithoutWorkersMembers | library/modules/Job.cpp:70-78 | a reference survives the clone's reference loop exactly when it is in the original and is not a unit-worker reference |
| Jobs.WithoutWorkersAppend | library/modules/Job.cpp:70-78 | removing the unit workers from `a + b` gives the survivors of `a` followed by the survivors of `b`, so survivors keep their relative order |
| Jobs.WithoutWorkersIdempotent | library/modules/Job.cpp:70-78 | removing the unit-worker references twice gives the same list as removing them once |
| Jobs.CloneIsEqualAndFree | library/modules/Job.cpp:55-85 | the clone equals the original under job equality, in both argument orders; the clone is free-floating, so it may be passed to `deleteJobStruct`; the clone has the same holder building |
| Jobs.CloneIdempotent | library/modules/Job.cpp:55-85 | cloning a clone gives the clone back |
| Jobs.CloneKeepsHolder | library/modules/Job.cpp:70-78 | dropping the unit-worker references does not change the first building-holder reference |
| Jobs.DeleteJobStruct | library/modules/Job.cpp:87-102 | a null job frees nothing; otherwise the job must be free-floating, and the references are freed from last to first, then the job items from last to first, then the job, and nothing else is freed |
| Jobs.ItemEquals | library/modules/Job.cpp:106-124 | the result is true exactly when all compared scalar fields and the `contains` sizes are equal and `contains` is equal element-wise; different `contains` sizes give false |
| Jobs.JobEquals | library/modules/Job.cpp:126-140 | the result is true exactly when all compared fields and the `job_items` sizes are equal and every job item equals its counterpart; different sizes give false |
| Jobs.FirstHolderIsFirstMatch | library/modules/Job.cpp:217-227 | there is no holder exactly when no reference is a building holder; a holder found is the building of a building-holder reference with no building holder before it |
| Jobs.GetJobHolder | library/modules/Job.cpp:217-227 | null exactly when no reference is a building holder; otherwise the building of the first building-holder reference |
| Jobs.InsertPos | library/modules/Job.cpp:244-246 | the walk stops after exactly the leading jobs whose ids are smaller, at a job whose id is not smaller, or at the end |
| Jobs.InsertPosUnique | library/modules/Job.cpp:244-246 | any index splitting the list into smaller and not-smaller ids is the walk's stop |
| Jobs.DuplicateFoundIffPresent | library/modules/Job.cpp:244-249 | on a sorted list the walk stops at a job with the same id exactly when some job of the list has that id |
| Jobs.InsertKeepsSorted | library/modules/Job.cpp:244-255 | on a sorted list, when the walk does not stop at the same id, no job has that id and inserting the job at the stop keeps the list sorted |
| Jobs.AppendKeepsSorted | library/modules/Job.cpp:236-242 | when every listed id is below the counter, appending a job that takes the counter's value keeps the list sorted, and every id stays below the incremented counter |
| Jobs.World.constructor | library/modules/Job.cpp:231-232 | the world's job list and next id are the given ones; the list must already be linked |
| Jobs.World.LinkJobIntoWorld | library/modules/Job.cpp:229-256 | requires the job not to be linked; with `new_id` the job takes the old `job_next_id`, the counter goes up by one, the linked job is appended at the tail and the result is true; without it the counter is unchanged, the result is false exactly when the walk stops at a job with the same id, in which case the list is unchanged, and otherwise the linked job is inserted at the walk's stop; in both cases every listed job stays linked |
| MapModel.TruncDiv | plugins/Brushes.h:20-28 | C++ integer division: the quotient is rounded toward zero, so it bounds `a` from below for non-negative `a` and from above for negative `a` |
| Brushes.RectangleBrush.constructor | plugins/Brushes.h:17-34 | the dimensions are stored; each centre is the given value, or the dimension divided by 2 in C++ when the argument is -1 |
| Brushes.ScanVisit | plugins/Brushes.h:44-49 | one inner step keeps the scan invariant: the list holds, in visiting order, exactly the valid box coordinates visited so far |
| Brushes.ScanNextRow | plugins/Brushes.h:50-51 | resetting z and stepping y keeps the scan invariant |
| Brushes.ScanNextPlane | plugins/Brushes.h:53-54 | resetting y and stepping x keeps the scan invariant |
| Brushes.ScanFinished | plugins/Brushes.h:40-55 | after the last plane every valid box coordinate has been collected |
| Brushes.RectangleBrush.Points | plugins/Brushes.h:35-57 | every point is valid and lies in the box `[start - centre, start - centre + dims)`; the points come in x-major, then y, then z order, so none repeats; every valid box coordinate is there; there are at most x·y·z points, exactly x·y·z when the whole box is valid, and none when a dimension is ≤ 0 |
| Brushes.BlockPoints | plugins/Brushes.h:72-91 | nothing when the start is invalid; otherwise 256 points, point `k` being `(16·(x/16) + k/16, 16·(y/16) + k%16, z)`, covering the whole block, in x-major order, and holding the start when its x and y are not negative |
| Brushes.ColumnPoints | plugins/Brushes.h:103-119 | point `k` is `(x, y, z + k)` and is valid; the first point is low- or high-passable and every later one low-passable; the tile above the last point is invalid or does not qualify |
| Brushes.MaybeFlood | plugins/Brushes.h:172-176 | the stack grows by `c` on top when `c` is valid and is otherwise unchanged |
| Brushes.PushIfValidKeeps | plugins/Brushes.h:172-176 | one push keeps the stack underneath, grows it by at most one, and adds `c` exactly when `c` is valid |
| Brushes.PushCandidates | plugins/Brushes.h:152-165 | the six pushes for a collected tile keep the old stack underneath and push at most six tiles; a tile is on the new stack exactly when it was on the old one or it is a valid neighbour of the collected tile: a horizontal one, the one below when the tile is low-passable, or the one above when it is high-passable |
| Brushes.PushedOntoKeeps | plugins/Brushes.h:152-165 | processing a tile keeps the stack underneath and pushes at most six tiles |
| Brushes.PushedOntoMembers | plugins/Brushes.h:152-165 | the tiles pushed for a collected tile are exactly its valid neighbours: the four horizontal ones, the one below when it is low-passable and the one above when it is high-passable |
| Brushes.FloodDiscard | plugins/Brushes.h:140-147 | popping a tile already seen or holding no water keeps the flood invariant |
| Brushes.FloodCollect | plugins/Brushes.h:140-165 | popping a new water tile, collecting it and pushing its valid neighbours keeps the flood invariant |
| Brushes.TracedAppend | plugins/Brushes.h:147-149 | appending a new valid water tile reached from an earlier one keeps the result duplicate-free, all water, starting at the start tile and reached step by step |
| Brushes.StackFromCollect | plugins/Brushes.h:152-165 | after collecting a tile every stacked tile is the start tile or a valid step from a collected tile |
| Brushes.FrontierCollect | plugins/Brushes.h:147-165 | after collecting a tile every valid water neighbour of a collected tile is seen or on the stack |
| Brushes.FloodDone | plugins/Brushes.h:140-170 | with the stack empty the collected tiles have every property `FloodPoints` promises |
| Brushes.FloodPoints | plugins/Brushes.h:131-170 | no point repeats; every point holds water; nothing when the start holds no water, otherwise the start comes first; every later point is valid and is a step from an earlier point; every valid water tile one step from a point is itself a point |

## Left out

- `printJobDetails` and `print_job_item_details`: console output, built on material and item-type helpers that are not part of this model.
- Heap management in the job code. `new`, `delete`, `ref->clone()` and the job-item copies are value copies here, so a clone of a reference is the same value as the original. `virtual_cast` is a tag test. `deleteJobStruct` returns the list of objects it frees instead of freeing them, and its `assert` is a precondition.
- `World.Valid()` (every listed job is linked) is a bookkeeping invariant that `LinkJobIntoWorld` preserves. The source never creates the world, so the constructor only stands for a world that already exists.
- Pointer identity and aliasing of jobs: `LinkJobIntoWorld` returns the linked job as a value, and the list holds a copy.
- `linked_list_append` and `linked_list_insert_after`: the chain of `job_list_link` nodes is a sequence of jobs after the sentinel head. The `prev` links and the `item` back pointers are not modelled.
- `getBuilding()`: how a building-holder reference resolves to a building is not part of this model. `GetJobHolder` returns the building id the reference holds. So its "null exactly when no reference is a building holder" holds of building ids only: in the source a building-holder reference whose `getBuilding()` is null still stops the search, and the result is then null.
- Job flags: `repeat` is taken as bit 0 and `suspend` as bit 1 of the 32-bit `job_flags` word. The header that defines this layout is not part of this model.
- Integer widths: job ids and `job_next_id` are unbounded integers, so the wrap-around of a 32-bit counter is not modelled. Map coordinates are unbounded too, so the 16-bit overflow of `iter.z++` and `start.z++` is not modelled.
- `DFCoord` `operator/` and `operator*` by 16 are not part of this model. They are taken to apply C++ division and multiplication to x and y and to keep z.
- `MapCache` internals: `testCoord` is membership in a finite set of coordinates. The tile type and the designation at a coordinate are arbitrary functions. Tile-type classification becomes the two flags `LowPassable` and `HighPassable`. A designation becomes its flow size and liquid type.
- The `Brush` base class, its virtual `points` and the virtual destructors: each brush's `points` is its own method, and there is no dynamic dispatch.
- `FloodBrush`'s constructor and its `Core *c_` member, which `points` never uses.
- `std::stack` and `std::set`: the work stack is a sequence whose last element is the top, and `seen` is a set.
- `Brushes.PushCandidates`: the six `maybeFlood` calls inside the flood loop are moved into a method of their own. Their order and guards stay as in the source.
- The Python binding `dfhack/python/DF_CreatureType.cpp`: reference counting and field copying, with no logic of the core.
