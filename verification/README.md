# NumPy core: calendar, dictionary, strided addressing, copy-back

This project models the parts of the NumPy core library that compute with
explicit loops and integer arithmetic, and proves what they promise.

* **Calendar and datetimes** (`Calendar`, `Datetime`, over `CInt`). Day numbers
  and dates of the proleptic Gregorian calendar (ISO 8601:2004, section 3.2.1),
  and the conversions between values in fourteen units and the broken-down
  struct. `CInt` defines C's truncating division and remainder, which every
  formula of the source uses.
* **The dictionary** (`DictModel`, `Dict`, `PrimeSearch`). A chained hash table of
  heap nodes that are relinked in place. `Dict.NpyDict` ties the nodes to a finite
  map from key classes to pairs; comparison and hash functions are parameters that
  agree, as every caller of the library owes.
* **Strided addressing** (`Shape`, `NdArray`, `SizeGuard`, `Odometer`, `ArrayIter`,
  `Broadcasts`, `Slices`, `Indexing`, `IndexViews`, `IndexAcceptance`, `IndexFaults`,
  `ByteSwap`, `SwapPositions`). Strides, contiguity, the size guard, change of item size, the flat
  iterator, broadcasting, index expressions, and byte swapping, for shapes of any length.
* **Arrays in memory** (`Storage`, `Overlaps`, `Copying`, `Moves`, `NewArrays`,
  `Fillings`, `Subscripts`, `Assignments`). Where the elements of an array lie in a block
  of memory, in which order a copy pairs them, what becomes of overlapping arrays, what
  copying does to the flags of both arrays, views of any part, and reading and assigning
  through index expressions.
* **Copy-back** (`WriteBack`, `Releasing`, `ForcedUpdates`, `Requests`, `FlatViews`,
  `WriteBackRuns`, `Shifts`, `ArrayHeap`). Arrays that stand in for another one, which stays locked
  until they are copied back into it: requests, forced updates, abandoned copies, flat
  views, releases that cascade through bases, and everything that any run of these
  operations can reach. `ArrayHeap.Heap` runs the C statements; the state after each
  routine is the function that the lemmas are about.
* **String comparison** (`StringCompare`) and **import order** (`ImportOrder`).

Methods that loop or change state are proved against functions of their inputs or
of the old state; the lemmas then say what those functions mean.

Where the code does not do what its comments say or its callers may expect, the model
follows the code:

* `day_of_week` (npy_datetime.c:76-88) is one day ahead of the weekday it documents.
* Seconds take the clock time from the whole value (npy_datetime.c:603), milliseconds
  before 1970 use a modulus that is one too small (618), nanoseconds divide by a
  thousand times the nanoseconds of a day (654). Converting a struct to business days
  treats Fridays as invalid and Sundays as working days, and misses the epoch (293-311):
  `Datetime.BusinessDaysExact` says which days convert. `Datetime.RoundTrip` says for
  which values each unit still comes back.
* `NpyDict_Rekey` onto a key in use leaves the element count too high by one
  (npy_dict.c:405-417). `Dict.NpyDict.Rekey` says when.
* `NpyArray_ITER_GOTO` weights each coordinate by one dimension only
  (npy_iterators.h:156-158). `Odometer.ShortIndexExact` says when the index is right.
* `NpyArray_FlatView` locks an array without asking whether it is writeable
  (npy_shape.c:537-553), so the comment of the release that the base "must have been
  writeable" does not hold for it. `FlatViews.FlatViewKeeps`, `FlatViewAndBack` and
  `TwoFlatViews` say when it does no harm and what happens otherwise.
* `NpyArray_CopyAnyInto` and `NpyArray_CastAnyTo` copy two Fortran arrays as one run
  without comparing their shapes (npy_ctors.c:1270-1279, npy_convert_datatype.c:485-490;
  the routine at npy_ctors.c:648-650 does compare them). The copy behind a flat view has
  one axis, which counts as Fortran, so a Fortran array comes back from an untouched flat
  view with its elements moved. `FlatViews.FlatViewReturns` says exactly when, and
  `WriteBackRuns.FlatViewMoves` shows it.
* A view that is requested in Fortran order can lose that flag, because arrays that pass
  both order tests are flagged as row-major (npy_flagsobject.c:82-106).
  `Requests.FromArrayServes` says when.
* Making an iterator brings the row-major flag of the array up to date
  (npy_iterators.c:49), so copying can turn the Fortran flag of either array into the C
  flag. A new Fortran copy can lose the flag that was asked for, and an array can come back
  from a pending copy with other flags than before. `Copying.IteratedTrue` says for which
  arrays, `Requests.FromArrayServes`, `FromArrayAndBack`, `FlatViews.FlatViewAndBack` and
  `Releasing.OrderKept` say when, and `Requests.CopyLosesFortran`, `CopyBackRelabels` and
  `WriteBackRuns.FlatViewRelabels` show it.
* The manual says that the areas of the two arrays of `PyArray_MoveInto` may overlap
  (doc/source/reference/c-api.array.rst:516-522). They may if they are moved in one run;
  otherwise the loops read items that they have already replaced (npy_ctors.c:228-241,
  301-313). `Moves.MoveExact` and `OneAxisDisturbed` say exactly when,
  `Assignments.AssignSelects` what it means for assignment, and `Shifts.ShiftSmears`
  shows it.
* `_copy_from_same_shape` (npy_ctors.c:213-215) takes the length of the innermost axis
  without asking whether there is one. `NpyArray_CopyAnyInto` gets there with arrays that
  have no axes and whose table of dimensions is a null pointer. In the model `World.trapped`
  records this and ends the run. `Requests.FromArrayAndBack` says exactly when a release
  does it, and `WriteBackRuns.ReleaseTraps` shows it.
* A Boolean index array has to leave an axis over (npy_index.c:167): one that takes all
  the axes that are left is refused as one index too many. `IndexAcceptance.BindAccepts`
  says when.
* Byte swapping is its own inverse only for some layouts:
  `SwapPositions.SwapTwiceExact` says which.

## Model

| member | source | states |
|---|---|---|
| `CInt.FloorIdiom` | libndarray/src/npy_datetime.c:564-602 | the idiom for negative dividends, (a-(n-1))/n and (n-1)+(a+1)%n under C truncation, is the floor quotient and the non-negative remainder, for every n |
| `CInt.Truncates` | libndarray/src/npy_index.c:444-455 | the C operators of the model truncate toward zero for either sign of either operand: the remainder is smaller than the divisor and has the sign of the dividend |
| `Calendar.YearLength` | libndarray/src/npy_datetime.c:65-104 | consecutive year offsets differ by 365, and by one more exactly in leap years, negative years included |
| `Calendar.EstimateBounds` | libndarray/src/npy_datetime.c:185-187 | for every day number the estimate by 365.2425-day years is the true year or one or two years late, never early |
| `Calendar.CorrectYearExact` | libndarray/src/npy_datetime.c:188-213 | the correction loop, started from any year, ends in the true year if and only if no leap year lies between the start and a later true year |
| `Calendar.CorrectYearFromLate` | libndarray/src/npy_datetime.c:188-213 | started in or after the true year the loop always ends in it |
| `Calendar.TrueYearUnique` | libndarray/src/npy_datetime.c:188-213 | a day lies in one year only, the one the loop looks for |
| `Calendar.SearchYear` | libndarray/src/npy_datetime.c:188-213 | the loop terminates from every starting year, with the year of the correction function |
| `Calendar.MonthFromCorrect` | libndarray/src/npy_datetime.c:215-226 | the month loop stops at the one month whose table interval holds the day of the year |
| `Calendar.DaysFromYmdAccepts` | libndarray/src/npy_datetime.c:113-155 | exactly which months and days are accepted, counted from either end, by the month lengths of the calendar; an error yields 0; what is accepted is the day number of a valid date |
| `Calendar.TablesFollowRule` | libndarray/src/npy_datetime.c:52-62 | both tables hold in every year what the calendar says: 30 days for four months, 28 or 29 for February by the Gregorian rule, 31 for the others, and for each month the sum of the lengths before it |
| `Calendar.DaysOrder` | libndarray/src/npy_datetime.c:113-155 | dates are in calendar order if and only if their day numbers are; equal day numbers mean equal dates |
| `Calendar.DateOf` | libndarray/src/npy_datetime.c:175-228 | every integer is the day number of a valid date, valid by the month lengths of the calendar |
| `Calendar.DaysCount` | libndarray/src/npy_datetime.c:93-155 | the epoch has the number 0 and every day the number after that of the day before it, months and leap days included, so the calendar alone says which day has which number |
| `Calendar.DateOfDays` | libndarray/src/npy_datetime.c:113-228 | a valid date comes back from its day number |
| `Calendar.DaysToYmdStruct` | libndarray/src/npy_datetime.c:175-228 | for every day number, the search by estimate, correction and month loop terminates with the valid date that has this day number |
| `Datetime.SplitDay` | libndarray/src/npy_datetime.c:564-698 | both sign branches of the clock units give the date of the floor quotient and the remainder within the day |
| `Datetime.BusinessToDays` | libndarray/src/npy_datetime.c:535-558 | both C branches of business days to days are one floor formula |
| `Datetime.SplitFemtos` | libndarray/src/npy_datetime.c:702-742 | femtoseconds, with the eve of the epoch as the only earlier day, are one floor formula for both signs |
| `Datetime.SplitAttos` | libndarray/src/npy_datetime.c:743-785 | attoseconds, likewise |
| `Datetime.DatetimeToStruct` | libndarray/src/npy_datetime.c:498-785 | for all fourteen units and all values the branches compute the floor-division struct |
| `Datetime.RoundTrip` | libndarray/src/npy_datetime.c:269-785 | for every unit and value: the struct converts back without error, and to the same value if and only if a stated range or residue condition holds; no condition for ten units |
| `Datetime.RoundTripFailures` | libndarray/src/npy_datetime.c:269-785 | one value each for seconds, milliseconds, nanoseconds and business days that does not come back |
| `Datetime.NormalExact` | libndarray/src/npy_datetime.c:498-785 | the struct has every field in its range if and only if a stated range holds; no condition for M, h, m, us and ps |
| `Datetime.StructRoundTrip` | libndarray/src/npy_datetime.c:269-785 | for Y, M, D, h, m, us and ps every in-range struct without finer fields comes back from its value, so the conversions are inverse |
| `Datetime.UnitsAgree` | libndarray/src/npy_datetime.c:272-396 | every in-range struct is counted alike in all units: its number in a coarser unit is that in the next finer one rounded down, from years and months to picoseconds; for femtoseconds and attoseconds exactly within the day, or the minute, around the epoch |
| `Datetime.Recount` | libndarray/src/npy_datetime.c:269-785 | a value that is converted to its struct and on to the next coarser unit is divided by the number of units in one of those, rounded down, for every value that comes back and has its fields in range |
| `Datetime.StructNothingFiner` | libndarray/src/npy_datetime.c:498-785 | for every unit and value the struct has nothing below the unit |
| `Datetime.EpochIsZero` | libndarray/src/npy_datetime.c:272-396 | the epoch is 0 in every unit but business days, where it is -2 |
| `Datetime.BusinessDaysEnumerate` | libndarray/src/npy_datetime.c:535-558 | business-day numbers are the increasing enumeration of exactly the Monday-to-Friday days |
| `Datetime.BusinessDaysIncrease` | libndarray/src/npy_datetime.c:535-558 | later business-day numbers are later days |
| `Datetime.BusinessDaysExact` | libndarray/src/npy_datetime.c:293-311 | every day converts to the number of its business day, or to 0 on weekends, if and only if it is not the epoch, not a Friday and not a Sunday |
| `Datetime.DayOfWeekAhead` | libndarray/src/npy_datetime.c:76-88 | the weekday helper is one day ahead of the calendar on every day |
| `PrimeSearch.IsProbablePrime` | libndarray/src/npy_dict.c:960-970 | true exactly if no odd number from 3 to 49 other than the argument divides it |
| `PrimeSearch.NumberAhead` | libndarray/src/npy_dict.c:972-982 | beyond every number lies an odd one that passes |
| `PrimeSearch.CalculateIdealNumOfBuckets` | libndarray/src/npy_dict.c:972-982 | terminates for every element count and positive ratio, at the first odd number from the candidate on that passes, which has room for the elements at the ideal ratio |
| `PrimeSearch.FirstCandidate` | libndarray/src/npy_dict.c:972-980 | the candidate is odd, at least 5, has room for the elements at the ideal ratio, and is not too large by one bucket unless it is 5 |
| `PrimeSearch.CandidateUnique` | libndarray/src/npy_dict.c:972-980 | these bounds leave one odd number only |
| `PrimeSearch.PassesIsPrime` | libndarray/src/npy_dict.c:960-970 | below 2809 passing is being prime |
| `PrimeSearch.PassesExact` | libndarray/src/npy_dict.c:960-970 | an odd number passes without being prime if and only if it is composite and has no divisor from 2 to 52; passing is having no such proper divisor |
| `PrimeSearch.FirstPseudoPrime` | libndarray/src/npy_dict.c:960-970 | 2809 passes and is not prime |
| `DictModel.InsertRepresents` | libndarray/src/npy_dict.c:308-323 | pushing a new pair to the front of its bucket adds one entry to the map |
| `DictModel.RemoveRepresents` | libndarray/src/npy_dict.c:477-507 | taking a node out removes exactly its key from the map |
| `DictModel.RehashRepresents` | libndarray/src/npy_dict.c:794-831 | pushing all pairs into any positive number of empty buckets keeps the map, each pair in the bucket of its hash and no two with equal keys |
| `DictModel.FlattenEnumerates` | libndarray/src/npy_dict.c:564-616 | the pairs in bucket order list each map entry exactly once |
| `DictModel.CopyRepresents` | libndarray/src/npy_dict.c:166-190 | copying every pair into as many empty buckets represents the copied map |
| `Dict.LinkFront` | libndarray/src/npy_dict.c:303-312 | pushing a node that is in no chain keeps all chains acyclic and disjoint and puts its pair first |
| `Dict.Unlink` | libndarray/src/npy_dict.c:483-498 | relinking the predecessor, or the bucket, takes exactly one node out of its chain and leaves every other chain alone |
| `Dict.NpyDict.CreateTable` | libndarray/src/npy_dict.c:77-112 | a valid table that stands for the empty map |
| `Dict.NpyDict.Locate` | libndarray/src/npy_dict.c:284-288 | the scan of a chain stops at the pair with an equal key, or shows that the key is not in the map |
| `Dict.NpyDict.Get` | libndarray/src/npy_dict.c:344-353 | the value the map holds for the key, or none |
| `Dict.NpyDict.ContainsKey` | libndarray/src/npy_dict.c:213-216 | true exactly if the key is in the map |
| `Dict.NpyDict.Put` | libndarray/src/npy_dict.c:276-324 | the map with the key bound to the value, through replacement, insertion and automatic rehash; the count follows the map size; the table is rehashed, to the ideal number of buckets, if and only if a new key brings it above the upper threshold |
| `Dict.NpyDict.ForceValue` | libndarray/src/npy_dict.c:448-457 | only the value of a key that is present changes |
| `Dict.NpyDict.Remove` | libndarray/src/npy_dict.c:477-507 | the map without the key, through unlinking and automatic rehash; the count follows the map size; the table is rehashed, to the ideal number of buckets, if and only if a removed key brings it below the lower threshold |
| `Dict.NpyDict.Rekey` | libndarray/src/npy_dict.c:376-425 | the value moves to the new key and replaces what that held; the count stays right if and only if no other pair is displaced |
| `Dict.RekeyOntoUsedKey` | libndarray/src/npy_dict.c:405-417 | a table where one entry is left and the count says two |
| `Dict.NpyDict.Rehash` | libndarray/src/npy_dict.c:794-831 | for every bucket count the map and the element count stay; the automatic count is the first odd number from the candidate on that passes the trial divisions, and has room for the elements at the ideal ratio |
| `Dict.NpyDict.MoveBucket` | libndarray/src/npy_dict.c:817-826 | moving the nodes of one bucket to the fronts of their new buckets, in place, is pushing its pairs |
| `Dict.NpyDict.RemoveAll` | libndarray/src/npy_dict.c:524-544 | the empty map, count 0, five buckets |
| `Dict.NpyDict.Copy` | libndarray/src/npy_dict.c:166-190 | a table of fresh nodes that stands for the copied map, with the original untouched |
| `Dict.DictIter.IterNext` | libndarray/src/npy_dict.c:597-616 | the next pair of the flat list, and nothing on every call after the last |
| `Dict.CollectAll` | libndarray/src/npy_dict.c:564-616 | a full pass returns every stored pair exactly once |
| `Shape.CStridesTile` | libndarray/src/npy_ctors.c:522-554 | with positive dimensions, C strides map index tuples one to one onto the multiples of the item size below the total |
| `Shape.FStridesTile` | libndarray/src/npy_ctors.c:522-554 | Fortran strides likewise |
| `Shape.DigitsOfRank` | libndarray/src/npy_iterators.h:162-185 | taking the row-major number of an index apart gives the index back |
| `Shape.RankOfDigits` | libndarray/src/npy_iterators.h:162-185 | the mixed-radix digits of a number below the size are an index with that number |
| `NdArray.FillStrides` | libndarray/src/npy_ctors.c:522-554 | the loops write C or Fortran strides (zero dimensions count as one), return the size in bytes and set the two order flags |
| `NdArray.FilledIsContiguous` | libndarray/src/npy_flagsobject.c:18-74 | strides that were filled in pass the test of their order, with zero dimensions too |
| `NdArray.ContiguousIsFilled` | libndarray/src/npy_flagsobject.c:18-74 | with two or more axes and no zero dimension exactly the filled strides pass |
| `NdArray.ArrayObject.IsContiguous` | libndarray/src/npy_flagsobject.c:18-44 | the early exits and the loop decide: every axis with no zero dimension at or after it has the stride of its suffix |
| `NdArray.ArrayObject.IsFortranContiguous` | libndarray/src/npy_flagsobject.c:48-74 | the same from the first axis |
| `NdArray.ArrayObject.UpdateFlags` | libndarray/src/npy_flagsobject.c:82-128 | each flag in the mask becomes what its test says, the two orders exclude each other beyond one axis, other flags stay; truthful flags stay truthful |
| `NdArray.OneAxisIsRun` | libndarray/src/npy_flagsobject.c:17-70 | one axis that has items passes either test if and only if its items are one run; an empty one if and only if it has the item size as its stride |
| `NdArray.ReplaceDim` | libndarray/src/npy_convert.c:67-109 | trading item size against one dimension keeps the size in bytes |
| `NdArray.CRetyped` | libndarray/src/npy_convert.c:88-109 | a C-contiguous array stays C-contiguous when its last axis absorbs the new item size |
| `NdArray.FRetyped` | libndarray/src/npy_convert.c:88-109 | a Fortran-contiguous array stays so when its first axis does |
| `NdArray.ArrayObject.SetDescr` | libndarray/src/npy_convert.c:48-152 | exactly when a type is accepted; on failure nothing changes; on success the size in bytes and the order of contiguity are kept, the order and alignment flags say what is true, and all other flags stay |
| `SizeGuard.CheckNewArray` | libndarray/src/npy_ctors.c:847-904 | accepts exactly the non-negative shapes whose item size times non-zero dimensions is representable; each error names a first offending dimension; the running quotient never overflows |
| `SizeGuard.DivideDown` | libndarray/src/npy_ctors.c:881-898 | comparing with a quotient is comparing the product, and dividing twice is dividing once |
| `SizeGuard.StridesFit` | libndarray/src/npy_ctors.c:522-554 | behind the guard every stride of either order and the total lie between the item size and the maximum |
| `Odometer.CarryEnds` | libndarray/src/npy_iterators.h:112-140 | where the carry loop stops it has the digits and the offset of the next number, or has wound round at the last one |
| `Odometer.ShortIndexExact` | libndarray/src/npy_iterators.h:156-158 | the index a jump to coordinates computes never exceeds the row-major index, and equals it if and only if every coordinate two or more axes from the end is zero or is followed, after the next axis, by axes of one item |
| `Odometer.ShortIndexWrong` | libndarray/src/npy_iterators.h:156-158 | a coordinate whose index comes out wrong |
| `ArrayIter.ArrayIterObject.Reset` | libndarray/src/npy_iterators.h:62-68 | item 0 |
| `ArrayIter.ArrayIterObject.Next2` | libndarray/src/npy_iterators.h:76-88 | the two-axis shortcut goes from item k to item k+1 |
| `ArrayIter.ArrayIterObject.NextN` | libndarray/src/npy_iterators.h:112-140 | the carry loop goes from item k to item k+1 over any number of axes, and back to the start from the last item |
| `ArrayIter.ArrayIterObject.Next` | libndarray/src/npy_iterators.h:112-140 | whichever shortcut applies, the pointer goes from item k to item k+1 of the row-major order; on one axis the coordinate moves along, and over a contiguous array of more axes it stays |
| `ArrayIter.ArrayIterObject.Goto1D` | libndarray/src/npy_iterators.h:162-185 | on every branch the pointer is that of item k, negative arguments from the end; the coordinates are left alone |
| `ArrayIter.ArrayIterObject.WalkTo` | libndarray/src/npy_iterators.h:62-185 | k steps from a reset land where the jump to k lands, with the coordinates of item k, which stay 0 beyond one axis of a contiguous array |
| `ArrayIter.ArrayIterObject.Goto` | libndarray/src/npy_iterators.h:142-160 | pointer and coordinates are those of the given coordinates, negative ones from the end; what the index becomes |
| `ArrayIter.ArrayIterObject.IterNew` | libndarray/src/npy_iterators.c:41-80 | the tables of any array, with any number of axes, satisfy what the steps and jumps rely on |
| `ArrayIter.MultiplyList` | libndarray/src/npy_multiarray.c:128-137 | the product of the dimensions |
| `Slices.SelectedIsRange` | libndarray/src/npy_index.c:444-455 | for every slice with a step the counted steps are exactly the range from start to stop |
| `Slices.BoundLikePython` | libndarray/src/npy_index.c:185-232 | for any start, stop and step and every dimension, a bound slice selects what Python selects, although stop is clamped to other values |
| `Slices.NoStopLikePython` | libndarray/src/npy_index.c:234-282 | the form without a stop likewise |
| `Slices.BoundWithin` | libndarray/src/npy_index.c:185-282 | every selected index lies in the dimension |
| `Indexing.CountNonNewLoop` | libndarray/src/npy_index.c:37-56 | how many dimensions the indices consume |
| `Indexing.IndexBind` | libndarray/src/npy_index.c:119-344 | the loop with its counters binds like the recursive definition, error cases included |
| `Indexing.ClampSlice` | libndarray/src/npy_index.c:185-232 | the ordered clamping assignments compute the clamped slice |
| `Indexing.IndexToDimsEtc` | libndarray/src/npy_index.c:350-441 | the loop with its counters makes the view of the recursive definition, error cases included |
| `IndexAcceptance.BindAccepts` | libndarray/src/npy_index.c:30-344 | an index expression is accepted if and only if the axes it needs, one for each index, as many as it has for a Boolean array, none for new axes and the first ellipsis, are there, every integer is in range for its axis, counted from the back after the first ellipsis, every Boolean array leaves an axis over, and there is no string |
| `IndexAcceptance.BindExpands` | libndarray/src/npy_index.c:160-182 | an accepted expression with Boolean arrays is bound like the one with an integer array for each of their axes |
| `IndexAcceptance.BindArrays` | libndarray/src/npy_index.c:119-344 | no integer array comes or goes in binding, and only integers, slices, integer arrays and new axes are left |
| `IndexFaults.BindFails` | libndarray/src/npy_index.c:119-344 | a refused expression has a fault, and the error is the one for it: a string, an integer out of range for its axis, or too many indices for the axes that are left |
| `IndexFaults.ViewAccepts` | libndarray/src/npy_index.c:351-440 | a view is made if and only if every index is bound, arrays only if they are allowed, and the axes are there |
| `IndexFaults.ViewFails` | libndarray/src/npy_index.c:351-440 | otherwise the error is the one for an index that no axis can be made from |
| `IndexFaults.ArraysAreZero` | libndarray/src/npy_index.c:388-405 | arrays among the indices count as the index 0 |
| `IndexViews.BindWellBound` | libndarray/src/npy_index.c:119-344 | whatever binding accepts has integers and slices that stay inside the dimensions they consume |
| `IndexViews.ViewExists` | libndarray/src/npy_index.c:350-441 | a well-bound index is accepted |
| `IndexViews.ViewInBase` | libndarray/src/npy_index.c:350-441 | every coordinate of the view shows an element of the base |
| `IndexViews.ViewShowsBase` | libndarray/src/npy_index.c:350-441 | that element is at the byte offset the view computes |
| `IndexViews.ViewInjective` | libndarray/src/npy_index.c:350-441 | different view coordinates show different elements |
| `IndexViews.ViewShowsSelected` | libndarray/src/npy_index.c:350-441 | every element that the index selects is shown |
| `IndexViews.SelectsLikePython` | libndarray/src/npy_index.c:119-344 | the bound index selects exactly the coordinates that the unbound one means in Python: negative integers from the end, the first ellipsis filling the gap, slices as Python counts them |
| `IndexViews.BindThenView` | libndarray/src/npy_index.c:119-441 | for all shapes, strides and index lists without strings and arrays: what is bound is accepted, in bounds, at the right offsets, shown once, and exactly the elements that the unbound index means in Python are shown |
| `ByteSwap.SwapElement` | libndarray/src/npy_ctors.c:181-189 | the generic two-pointer loop reverses one element of any size |
| `ByteSwap.SwapFour` | libndarray/src/npy_ctors.c:159-165 | the unrolled case for four bytes reverses them |
| `ByteSwap.SwapEight` | libndarray/src/npy_ctors.c:166-174 | the unrolled case for eight bytes reverses them |
| `ByteSwap.StridedByteSwap` | libndarray/src/npy_ctors.c:150-191 | every branch reverses the elements one after the other, at any stride |
| `ByteSwap.SwapAllReverses` | libndarray/src/npy_ctors.c:150-191 | elements that do not overlap come out with their bytes in the opposite order |
| `ByteSwap.SwapAllOutside` | libndarray/src/npy_ctors.c:150-191 | no byte outside the elements changes |
| `ByteSwap.SwapTwice` | libndarray/src/npy_ctors.c:150-191 | swapping twice restores the buffer when elements do not overlap |
| `ByteSwap.OverlapIsNotRestored` | libndarray/src/npy_ctors.c:150-191 | overlapping elements for which it does not |
| `SwapPositions.SwapTwiceExact` | libndarray/src/npy_ctors.c:150-191 | swapping twice restores every buffer if and only if the elements do not overlap, or all lie in the same place, or neighbours are one byte apart and an even number of elements is one less than the element size |
| `StringCompare.MyStrNCmp` | libndarray/src/npy_arrayobject.c:201-229 | for any two lengths the sign is that of lexicographic order of the strings padded with NULs |
| `StringCompare.MyUniNCmp` | libndarray/src/npy_arrayobject.c:141-190 | the same for wide strings |
| `StringCompare.CompareUCS4` | libndarray/src/npy_arrayobject.c:24-36 | the first difference within the length decides |
| `StringCompare.CompareTail` | libndarray/src/npy_arrayobject.c:212-228 | the tail of the longer string decides by its first unit that is not NUL |
| `StringCompare.LessTransitive` | libndarray/src/npy_arrayobject.c:141-229 | the order is transitive |
| `StringCompare.LessExcludes` | libndarray/src/npy_arrayobject.c:141-229 | smaller excludes greater and equal |
| `StringCompare.SameIsCongruent` | libndarray/src/npy_arrayobject.c:141-229 | strings that compare equal compare alike with all others, so the results are those of a total preorder |
| `StringCompare.SameIsTrimmedEqual` | libndarray/src/npy_arrayobject.c:141-229 | the zero case is equality up to trailing NULs |
| `Storage.ContiguousRun` | libndarray/src/npy_flagsobject.c:18-74 | an array that passes the row-major (column-major) test is one run of items, listed in row-major (column-major) order |
| `Storage.ListedSame` | libndarray/src/npy_ctors.c:1270-1279 | listing elements in column-major order changes nothing, whatever they are, if and only if at most one axis is longer than one or some axis is zero |
| `Storage.WrittenIsRead` | libndarray/src/npy_ctors.c:1305-1318 | what is written to different places, one after the other, is read there |
| `Copying.StoredMeans` | libndarray/src/npy_ctors.c:1270-1320 | a copy writes exactly the elements of the destination, paired in row-major order, or in column-major order when two Fortran arrays are copied as one run |
| `Copying.ConvertedMeans` | libndarray/src/npy_multiarray.c:933-967 | items are taken over as they are if and only if the types agree in size, byte order and kind; between all other types every item is cast |
| `Copying.SameShapeArrives` | libndarray/src/npy_ctors.c:1281-1294 | between arrays of one shape every element that a copy delivers arrives where it belongs, whichever order the copy takes |
| `Copying.IteratedTrue` | libndarray/src/npy_iterators.c:41-49 | making an iterator keeps the order flags true and a second one changes nothing more; the first changes the header if and only if it is flagged column-major beyond one axis and passes the row-major test as well |
| `WriteBack.CopyMeans` | libndarray/src/npy_ctors.c:1247-1320 | a copy that is not refused delivers the elements by one write and touches no other block, unless it follows a null pointer; the headers stay if and only if no iterators are made or neither array is one that they relabel |
| `WriteBack.CopyOutcome` | libndarray/src/npy_ctors.c:1247-1320 | from types, flags and shapes alone: when a copy is refused, does nothing, follows a null pointer, writes the destination once, and brings which order flags up to date |
| `WriteBack.CopyConverts` | libndarray/src/npy_ctors.c:1247-1320 | into a writeable array of the same shape every element arrives, cast if and only if its type differs in size, byte order or kind |
| `Copying.BothOrders` | libndarray/src/npy_flagsobject.c:18-74 | beyond one axis an array that is in both orders has at most one element |
| `NewArrays.NewIsSeated` | libndarray/src/npy_ctors.c:917-970 | a new array of either order has true order flags, elements at different places, and shows what it was given |
| `NewArrays.ViewedKeeps` | libndarray/src/npy_ctors.c:1071-1095 | a view with any layout inside the memory of its base, partial or whole, keeps the world valid |
| `NewArrays.AttachedKeeps` | libndarray/src/npy_ctors.c:1173-1178 | locking a free array behind a copy of its size keeps the world valid |
| `NewArrays.LockedOutKeeps` | libndarray/src/npy_shape.c:519-556 | taking a pending copy without a test keeps the world valid if and only if nobody holds a pending copy of the array |
| `Releasing.DecrefSettles` | libndarray/src/npy_arrayobject.c:470-536 | dropping a reference frees exactly the chain of arrays that lose their last one; every pending one has arrived in its base by one write, or follows a null pointer, its base is unlocked, iterators are made over exactly the bases that are not copied in one run, no other header and no other item changes, and the world stays valid |
| `Releasing.OrderKept` | libndarray/src/npy_arrayobject.c:470-536 | an array that stays keeps its order flags if and only if no iterator is made over it or it is not one that passes the row-major test while flagged column-major |
| `Releasing.OwnerLives` | libndarray/src/npy_arrayobject.c:507-527 | the memory that an array shows belongs to an array that is alive, so it is not freed |
| `ForcedUpdates.ForceSettles` | libndarray/src/npy_arrayobject.c:108-133 | a forced update leaves an ordinary array, with the order flags that the copying iterators recompute, and does to all other headers, counts and memory what a release does: the copy back by one write, the unlocked base, the chain that goes |
| `ForcedUpdates.ForceThenRelease` | libndarray/src/npy_arrayobject.c:108-536 | a forced update followed by the last release leaves the very state that the release alone leaves, so the copy is written back once |
| `ForcedUpdates.AbandonSettles` | libndarray/src/npy_api.h:321-326 | abandoning a pending copy keeps the world valid: the base is unlocked and its memory stays as it is, and the rest goes as in a release |
| `ForcedUpdates.OnlyPending` | libndarray/src/npy_arrayobject.c:108-133 | an array that waits for nothing is not changed by a forced update, and abandoning it is releasing it |
| `Requests.FromArrayKeeps` | libndarray/src/npy_ctors.c:1101-1239 | whatever is requested, the world stays valid and the caller owns a reference to the result |
| `Requests.FromArrayServes` | libndarray/src/npy_ctors.c:1101-1239 | exactly when a request is refused, shares memory, returns the array itself, or waits to be copied back; the result has the elements and the type; it lacks a wanted flag if and only if, beyond one axis, a new copy in Fortran order was to have both orders or was filled by iterators and passes the row-major test, or a view is not aligned, or a view wanted in Fortran order passes the row-major test; the order flags of the array change only where iterators fill the copy |
| `Requests.FromArrayGives` | libndarray/src/npy_ctors.c:1101-1239 | from flags and types alone: memory is shared if and only if no copy is forced, the types agree in size, byte order and kind, and the array has every wanted flag; what is handed out has the wanted size and byte order and, flag by flag, what was wanted, with the exact exceptions beyond one axis |
| `Requests.ViewLosesFortran` | libndarray/src/npy_ctors.c:1071-1095 | an array of shape (1, 1) whose exact view loses the wanted order flag |
| `Requests.CopyLosesFortran` | libndarray/src/npy_ctors.c:1143-1172 | a C-ordered array of shape (1, 1) whose new Fortran copy loses the wanted order flag to the copying iterator |
| `Requests.LockedOutAndBack` | libndarray/src/npy_ctors.c:1165-1178 | an untouched pending copy of any shape and order is released: the base has its elements after the round trip, paired as the copy pairs them, unless the copy back comes to a null pointer; its header is as before but writeable, with the row-major flag brought up to date exactly if iterators were made on the way out or back; nothing else changes |
| `Requests.FromArrayAndBack` | libndarray/src/npy_ctors.c:1143-1235 | a requested pending copy, in either order, and its release leave every element but for the conversion to the other type and back, and every header, unless iterators are made over an array that passes the row-major test while flagged Fortran only; the release follows a null pointer if and only if the array has no axes, the types are equivalent, and it is not native or not aligned |
| `Requests.CopyBackRelabels` | libndarray/src/npy_ctors.c:1143-1235 | a Fortran array of shape (1, 1) that is C-contiguous after a pending copy was taken and released |
| `Requests.LockHolds` | libndarray/src/npy_ctors.c:1247-1320 | while a copy is pending, which copies write the memory of its base: exactly those into an array that shares it and is writeable, that are not refused, not empty and follow no null pointer; a copy into the base itself does nothing |
| `Requests.ViewBeforeLock` | libndarray/src/npy_ctors.c:1071-1178 | a view made before the lock stays writeable and shares the memory, so the lock does not cover it |
| `FlatViews.FlatViewKeeps` | libndarray/src/npy_shape.c:519-556 | a flat view keeps the world valid if and only if the array is contiguous or nobody holds a pending copy of it |
| `FlatViews.FlatViewShows` | libndarray/src/npy_shape.c:519-556 | view or copy, it shows the elements of the array in row-major order |
| `FlatViews.FlatViewAndBack` | libndarray/src/npy_shape.c:519-556 | releasing a copying flat view makes the array writeable, even if it was not, flags it C-contiguous if it passes that test, and an aligned, native Fortran array gets its elements back in column-major order; the headers are as before if and only if the array was writeable and does not pass the row-major test |
| `FlatViews.FlatViewReturns` | libndarray/src/npy_shape.c:519-556 | an untouched copying flat view gives back whatever the array holds if and only if the array is not flagged Fortran and aligned with native items, or its shape has one order only |
| `FlatViews.TwoFlatViews` | libndarray/src/npy_shape.c:519-556 | a second flat view of an array that is not flagged C-contiguous keeps the world valid if and only if the array passes the row-major test, and is then a plain view; otherwise both wait, and releasing the first leaves the array writeable while the second still waits |
| `Subscripts.IndexedView` | libndarray/src/npy_mapping.c:619-651 | an accepted index makes a view inside the memory of the array, without overlaps, whose elements are the ones at the shown coordinates |
| `Subscripts.PickedIsShown` | libndarray/src/npy_mapping.c:619-651 | the view shows an element if and only if the index means it in Python |
| `Subscripts.ThroughView` | libndarray/src/npy_mapping.c:619-651 | changing the elements of the view changes exactly the selected elements of the array |
| `Broadcasts.BroadcastShape` | libndarray/src/npy_iterators.c:897-925 | the loop finds the common shape of two arrays, or that there is none |
| `Broadcasts.StretchedStrides` | libndarray/src/npy_iterators.c:938-968 | the loop makes the strides with which an array is walked in the common shape |
| `Broadcasts.FitsMeans` | libndarray/src/npy_ctors.c:267-272 | the common shape has as many elements as a destination that has some if and only if each axis of the source, aligned from the last one, is of length 1 or that of the destination |
| `Broadcasts.WalkedTogether` | libndarray/src/npy_iterators.c:890-972 | walked in the common shape, the destination shows its own elements in order, and the source at each of them the element whose coordinates are the same from the last axis on, or 0 on axes of length 1 |
| `Broadcasts.SameShapeMeets` | libndarray/src/npy_ctors.c:682-688 | arrays of one shape meet element by element |
| `Moves.FillsAll` | libndarray/src/npy_ctors.c:357-412 | the places that one element is copied to, as a run, by a stride or by an iterator, are exactly those of the destination |
| `Overlaps.InTurnExact` | libndarray/src/npy_ctors.c:32-148 | copying item by item delivers the items, whatever memory holds, if and only if no step reads a place that an earlier step has overwritten with another item |
| `Overlaps.OneAxisClean` | libndarray/src/npy_ctors.c:32-148 | along one axis with one stride that fails if and only if the destination starts at a later one of the items that are read |
| `Overlaps.VisitedAll` | libndarray/src/npy_iterators.c:794-839 | the lines along any axis, one after the other, visit every element exactly once |
| `Overlaps.LinePlace` | libndarray/src/npy_iterators.c:794-839 | along a line the pointer moves from its start by the stride of the axis |
| `Overlaps.FindSmallestAxis` | libndarray/src/npy_iterators.c:847-884 | the loop takes the first axis with the smallest sum of strides |
| `Overlaps.LeastAxisIs` | libndarray/src/npy_iterators.c:806-822 | the axis that a copy takes innermost: the first one after the first axis with the least positive stride, if that is below the first stride that is not 0, else the first axis |
| `Moves.MoveMeans` | libndarray/src/npy_ctors.c:631-702 | a move delivers to every element of the destination the converted element of the source that meets it in broadcasting, unless it reads items that it has itself replaced; nothing but the destination changes, and nothing at all if it fails; iterators relabel both headers, even if the shapes then do not fit |
| `Moves.MoveOutcome` | libndarray/src/npy_ctors.c:631-702 | from types, flags and shapes alone: when a move fails, has nothing to do, writes the destination once, and brings which order flags up to date |
| `Moves.MoveConverts` | libndarray/src/npy_ctors.c:631-702 | into a writeable array that the value fits every element is moved, cast if and only if its type differs in size, byte order or kind |
| `Moves.MoveExact` | libndarray/src/npy_ctors.c:631-702 | between arrays of one block a move by iterators delivers whatever the block holds if and only if no item is read after another one has replaced it |
| `Moves.OneAxisDisturbed` | libndarray/src/npy_ctors.c:631-702 | along one axis that fails if and only if the destination starts at a later element of the source |
| `Moves.ApartInTurn` | libndarray/src/npy_ctors.c:202-247 | between arrays that share no memory the order in which the items are copied is no matter |
| `Assignments.AssignSucceeds` | libndarray/src/npy_mapping.c:852-899 | an assignment that is attempted succeeds if and only if the value fits the selection, or is empty and needs a cast |
| `Assignments.AssignSelects` | libndarray/src/npy_mapping.c:852-899 | assignment of a value of any shape through an index: if the value fits, exactly the elements that the index means in Python change, to the converted elements of the value that meet them in broadcasting, unless the move itself replaces elements of the value before it reads them; otherwise no element changes; the headers change only by the relabelling of iterators |
| `Assignments.AssignConverts` | libndarray/src/npy_mapping.c:852-899 | a value that fits is assigned item by item as it is, or cast if its type differs in size, byte order or kind |
| `Assignments.AssignHeaders` | libndarray/src/npy_mapping.c:852-899 | which headers an assignment changes: none if the array is read-only or the index is refused, else the order flags of the value and, without an index, of the array, if iterators are made |
| `Assignments.AssignsWhen` | libndarray/src/npy_mapping.c:852-899 | success, from flags, shapes and types alone: a writeable array, an accepted index with at most 32 axes, and a value that fits or that is empty and needs a cast |
| `Assignments.OneType` | libndarray/src/npy_mapping.c:852-899 | arrays that share a block have items of one type, so a value that needs a cast never overlaps |
| `Subscripts.CopyBackSelects` | libndarray/src/npy_arrayobject.c:470-536 | releasing a pending copy of an index view, unless it follows a null pointer, puts its elements where the index means, and nowhere else |
| `Fillings.FilledByMove` | libndarray/src/npy_ctors.c:1143-1172 | copying into a new array, whatever its memory held, succeeds and gives the copy of the request, flags included |
| `Fillings.FilledFlat` | libndarray/src/npy_shape.c:537-549 | flattening into a new array, whatever its memory held, gives the copy of the flat view, flags included |
| `WriteBackRuns.StepKeeps` | libndarray/src/npy_ctors.c:1101-1239 | every operation (new arrays, requests, views of any part, subscripts, flat views, forced updates, references, abandoned copies, assignments) keeps the world valid if and only if it is not a copying flat view of an array with a pending copy |
| `WriteBackRuns.ReachedLocks` | libndarray/src/npy_ctors.c:1143-1235 | in every state reachable by any number of such steps an array that waits to be copied back has its base locked and alive, is the only one to wait for it, and has memory of its own; copying into the base does nothing, and a copy writes its memory exactly through another writeable array that shares it |
| `WriteBackRuns.ReachedMemory` | libndarray/src/npy_arrayobject.c:470-536 | in every reachable state the elements of each array lie at different places of memory whose owner is alive, and order flags are true |
| `WriteBackRuns.FlatViewsBreak` | libndarray/src/npy_shape.c:519-556 | a reachable array of which two flat views are two pending copies |
| `WriteBackRuns.FlatViewMoves` | libndarray/src/npy_ctors.c:1270-1279 | a reachable Fortran array of shape (2, 2) whose elements 1 and 2 are exchanged by an untouched flat view |
| `WriteBackRuns.FlatViewRelabels` | libndarray/src/npy_iterators.c:41-49 | a reachable Fortran array of shape (1, 1) that a flat view leaves C-contiguous, so that the next flat view is a plain view |
| `WriteBackRuns.ReleaseTraps` | libndarray/src/npy_ctors.c:202-215 | three steps that end in a null pointer: a byte-swapped array without axes, a pending copy of it, and its release |
| `Shifts.ShiftSmears` | libndarray/src/npy_ctors.c:631-702 | a reachable array of three byte-swapped items that all become the first one when the first two are assigned to the last two |
| `ArrayHeap.Heap.IterNew` | libndarray/src/npy_iterators.c:41-49 | the update of the row-major flag, through the two contiguity loops, gives the header that iterators leave |
| `ArrayHeap.Heap.CopyItems` | libndarray/src/npy_ctors.c:1305-1318 | the loop of two iterators, which reads memory as it writes it, stores all items of arrays that do not overlap, in any two layouts of as many elements |
| `ArrayHeap.Heap.CopyFromSameShape` | libndarray/src/npy_ctors.c:202-247 | both headers are relabelled and the elements are copied line by line along the densest axis; without axes a null pointer is followed |
| `ArrayHeap.Heap.CopyAnyInto` | libndarray/src/npy_ctors.c:1247-1320 | refused exactly when the destination is read-only or of another size (casting nothing is never refused); then nothing changes, otherwise the elements arrive in one run or by iterators, with the headers these leave, or a null pointer is followed |
| `ArrayHeap.Heap.CastAnyTo` | libndarray/src/npy_convert_datatype.c:459-498 | the same through a cast, which follows no null pointer |
| `ArrayHeap.Heap.MoveInto` | libndarray/src/npy_ctors.c:631-702 | the branches reach the state that MoveMeans describes, and fail exactly when the destination is read-only or the shapes do not fit |
| `ArrayHeap.Heap.CastTo` | libndarray/src/npy_convert_datatype.c:224-284 | the same through a cast; casting nothing succeeds |
| `ArrayHeap.Heap.CopyLines` | libndarray/src/npy_ctors.c:228-241 | the two nested loops copy item by item along the axis, between arrays that may share memory |
| `ArrayHeap.Heap.BroadcastCopy` | libndarray/src/npy_ctors.c:251-321 | iterators are made over both arrays, then the shapes are compared, and what fits is copied line by line in the common shape |
| `ArrayHeap.Heap.BroadcastCast` | libndarray/src/npy_convert_datatype.c:65-155 | the same through a cast |
| `ArrayHeap.Heap.CopyFrom0d` | libndarray/src/npy_ctors.c:324-417 | the loop stores one element at every place of the destination |
| `ArrayHeap.Heap.Decref` | libndarray/src/npy_object.h:94-101 | the state of the release that DecrefSettles describes |
| `ArrayHeap.Heap.Dealloc` | libndarray/src/npy_arrayobject.c:470-536 | the statements of the deallocator, recursion into the base included, reach that state |
| `ArrayHeap.Heap.ForceUpdate` | libndarray/src/npy_arrayobject.c:108-133 | the statements of the forced update reach the state that ForceSettles describes |
| `ArrayHeap.Heap.Abandon` | libndarray/src/npy_api.h:321-326 | the statements of the macro reach the state that AbandonSettles describes |
| `ArrayHeap.Heap.FromArray` | libndarray/src/npy_ctors.c:1101-1239 | the branches return the array or the error of the request function and reach its state |
| `ArrayHeap.Heap.Copy` | libndarray/src/npy_ctors.c:1152-1172 | allocating and then copying into the new array reaches the state of the copy |
| `ArrayHeap.Heap.Recomputed` | libndarray/src/npy_flagsobject.c:82-128 | a view keeps the writeable flag and gets the other flags from the tests of its own layout |
| `ArrayHeap.Heap.NewView` | libndarray/src/npy_ctors.c:1071-1095 | a view of any part that shares memory, inherits only the writeable flag and holds a reference |
| `ArrayHeap.Heap.Alloc` | libndarray/src/npy_ctors.c:917-990 | a new array with the strides and flags of its order |
| `ArrayHeap.Heap.FlatView` | libndarray/src/npy_shape.c:519-556 | the view or the pending copy; exactly when the state stays valid |
| `ArrayHeap.Heap.Flatten` | libndarray/src/npy_ctors.c:429-502 | allocating and flattening, with an iterator over an array that has axes, reaches the state of the copy |
| `ArrayHeap.Heap.IndexSimple` | libndarray/src/npy_mapping.c:619-651 | binding, the view builder and the view in turn: accepted exactly when the index binds and the view has at most 32 axes, else nothing changes |
| `ArrayHeap.Heap.SubscriptAssign` | libndarray/src/npy_mapping.c:852-899 | the branches reach the state that AssignSelects describes, for values of any shape, and report success exactly when the array is writeable, the index accepted, and the value fits or is empty and needs a cast |
| `ImportOrder.GetSortedNames` | numpy/_import_tools.py:102-126 | for acyclic dependencies the loops terminate, and return each package once, after its dependencies among the packages, whatever order the dictionary is walked in |
| `ImportOrder.EmitIndependent` | numpy/_import_tools.py:112-115 | the first loop emits exactly the packages without dependencies |
| `ImportOrder.OnePass` | numpy/_import_tools.py:117-124 | one pass emits a package, unless all that remain depend on each other |
| `ImportOrder.VisitKeeps` | numpy/_import_tools.py:119-124 | each visit keeps the emitted names in order and the shortened lists complete |
| `ImportOrder.KnotHasCycle` | numpy/_import_tools.py:117-124 | packages that all depend on one another in a finite set contain a cycle |
| `ImportOrder.GoodOrderIsAcyclic` | numpy/_import_tools.py:102-126 | an order with every package after its dependencies exists for acyclic dependencies only |
| `ImportOrder.CycleNeverEnds` | numpy/_import_tools.py:117-124 | with a cycle the loop condition holds after any number of passes, walked in any order |

## Left out

- Machine width: datetime values, pointers, strides and counts are unbounded integers, so wrap-around of `npy_int64` and `int` is not modelled; the size guard is the exception, and is proved against the largest index value.
- Floating point: the year estimate and the dictionary's ratios are exact rationals; rounding is not modelled.
- Timedelta conversions (npy_datetime.c:402-491, 796-929): branch arithmetic like that of the datetimes.
- Allocation failure, threads, Python error objects, interface wrappers and deallocation callbacks; errors are result values.
- `NpyDict_ContainsValue`, `NpyDict_Destroy`, the setters of the dictionary's functions and its string hash.
- Dict.NpyDict.Put: a replaced key or value is dropped without the deallocation callbacks, which are not part of this model.
- Dict.NpyDict.CreateTable: the bucket count is positive, as the assertion at npy_dict.c:81 demands of the caller.
- Dict.DictIter.IterNext: the table must not change during a pass, as the header of the source demands.
- The write before the factor table that `array_iter_base_init` makes for an array without axes (npy_iterators.c:63); the value is never read.
- `_NpyArray_ITER_NEXT3`, which no macro uses, broadcasting of more than two arrays, and neighbourhood iterators.
- ArrayIter.ArrayIterObject.Goto1D: the coordinates stay as they were, as in the source, so a step after a jump is only promised for the shortcuts.
- Indexing.IndexBind: `out_indexes` is a sequence that grows, not a caller's buffer; boolean index arrays are known by their number of dimensions and expand to integer arrays, and `NpyArray_IndexExpandBool` itself, which falls through its switch, is left out. A boolean array that exactly fills the remaining axes is refused, as at npy_index.c:167.
- Indexing.IndexToDimsEtc: the output arrays are sequences; slice steps are not zero, which the source leaves to its callers.
- NdArray.ArrayObject.SetDescr: types with a subarray are left out; the answers of the alignment test and of the object check are parameters.
- NdArray.ArrayObject.UpdateFlags: the alignment and writeability tests, which look at the data pointer and the owner, are parameters.
- SizeGuard.CheckNewArray: descriptors with a subarray are left out; `elsize` is not negative.
- StringCompare.MyUniNCmp: misaligned strings are compared through aligned copies in the source; the copy is left out.
- StringCompare.MemCmp: `memcmp` is a loop over bytes that returns their difference.
- Storage: memory holds whole items by the byte offset at which they start; views with another item size over the same memory, and layouts whose elements overlap, are left out. Zero-size items are left out too.
- ArrayHeap.Heap.Dealloc: array headers are values in a table indexed by reference, not heap objects, so that a whole state is one value that runs can be about; a header leaves the table just before its base loses its reference. Freed memory stays in the table; `WriteBackRuns.ReachedMemory` says that no array that is alive shows it.
- ArrayHeap.Heap.ForceUpdate: the base is given up just before, not just after, its reference is dropped.
- ArrayHeap.Heap.FromArray: whether types are of one kind, may be cast, and how one item is cast are parameters, and a cast function always exists; flexible types without a size are left out; the answer of the alignment test is a parameter.
- ArrayHeap.Heap.CopyAnyInto: the arrays share no memory, as the comment at npy_ctors.c:1242-1243 demands. Reference counts of object items are left out.
- ArrayHeap.Heap.MoveInto: arrays of different types do not share a block, which holds for all arrays of this model. A common shape whose size overflows counts as one that does not fit, which fails likewise.
- ArrayHeap.Heap.BroadcastCast: the buffers of the cast are left out; nothing overlaps here, so their length makes no difference.
- ArrayHeap.Heap.SubscriptAssign: the shortcut for one integer (npy_mapping.c:876-885) makes the view that the general path makes, and is not a branch of its own.
- ArrayHeap.Heap.IndexSimple: the local tables of 32 entries (npy_mapping.c:622-624), which are filled before array creation counts the axes, are sequences.
- Other code that sets or clears the writeable flag directly (numpy/core/src/multiarray/getset.c and methods.c).
- The casting and coercion tables, text and file reading, buffer formats, and all build, documentation and benchmark scripts.
