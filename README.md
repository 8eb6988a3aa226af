# citybike core in Dafny

This project models three parts of the citybike bike-share package.

**The ordering and lookup toolkit (`citybike/algorithms.py`).**
- `merge_sort` is modelled with its `_merge` helper.
- `insertion_sort`, `binary_search` and `linear_search` are modelled as written.
- Elements have any type `T`. They are compared through a key projection `key: T -> int`.

Each algorithm keeps the form it has in the source:
- `merge_sort` is a recursive method.
- `_merge` is a while loop that appends to a result.
- `insertion_sort` copies the input into an array and shifts elements in place. Its inner shift loop is the method `ShiftInsert`.
- `binary_search` is a loop that moves `low` and `high`. The loop of `linear_search` never completes an iteration, so it is written as an `if`.

Each method is proved equal to a specification function: `Merged`, `MergeSorted` and `InsertionSorted`. Lemmas about those functions prove what the sorts promise:
- the result is a permutation of the input;
- the result is non-decreasing by key;
- the sort is stable. Stability is stated with `WithKey`: for every key, the elements with that key appear in input order;
- an already sorted input comes back unchanged.

`SortedStableUnique` proves that a sorted, stable rearrangement is unique. As a result, merge sort and insertion sort return the same list on every input (`SortsAgree`). Sequences are values, so neither sort can modify the caller's list.

**The domain entities (`citybike/models.py`).**
- There is one Dafny class per entity.
- Python inheritance becomes composition: a subclass object holds its base-class part in `base`.
- A static `Create` method performs the checks of `__init__`, in the source's order. It returns either the new object or the exception that `__init__` raises.
- Every object satisfies `Valid()`, the class invariant.
- Each validating property setter returns `Fail` on a bad value and leaves the field unchanged. Otherwise it assigns and keeps `Valid()`.
- Datetimes are integer timestamps and floats are reals. `datetime.now()` becomes the parameter `now`.

Two defects are modelled as written:
- `MemberUser` created without a membership end always fails. The end defaults to the start, and the end must be strictly after the start.
- `MaintenanceRecord` construction always fails. It assigns to a property that has no setter.

**The factories (`citybike/factories.py`).**
- `create_bike` and `create_user` lower-case a type tag, fill in defaults and construct the matching class.
- An unknown tag or a missing dictionary key makes them raise.
- A dictionary is modelled by the entries the factories read, each `None` when absent.
- A validation error of the model constructor is passed on unchanged, as `Invalid(cause)`.

`linear_search` differs from its documented intent. Its name and comment describe a sequential scan. The code is a copy of the bisection that reads an undefined name. The model follows the code (`LinearSearch`). The intended first-match scan is given separately (`FirstIndexOf`). See Findings.

## Model

| member | source | states |
|---|---|---|
| `Algorithms.Merge` | citybike/algorithms.py:23-40 | The two-pointer loop returns exactly `Merged(left, right)`. |
| `Algorithms.MergedPermutation` | citybike/algorithms.py:23-40 | The merge has length `len(left) + len(right)` and the multiset union of both inputs. |
| `Algorithms.MergedSorted` | citybike/algorithms.py:23-40 | Merging two lists sorted by key gives a list sorted by key. |
| `Algorithms.MergedWithKey` | citybike/algorithms.py:30-36 | The tie-break `<=` takes the left element first. For every key, the merge lists the left input's elements with that key, then the right input's. |
| `Algorithms.MergedKeepsOrder` | citybike/algorithms.py:30-39 | Each input occurs in the merge as a subsequence, in its original relative order. |
| `Algorithms.MergeSort` | citybike/algorithms.py:11-20 | The recursive sort returns `MergeSorted(data)`. A list of length at most one comes back equal. |
| `Algorithms.MergeSortedPermutation` | citybike/algorithms.py:11-20 | Merge sort returns a permutation of its input, of the same length. |
| `Algorithms.MergeSortedSorted` | citybike/algorithms.py:11-20 | Merge sort's result is non-decreasing by key. |
| `Algorithms.MergeSortedStable` | citybike/algorithms.py:11-40 | Merge sort is stable: equal-keyed elements keep their input order. |
| `Algorithms.MergeSortedOfSorted` | citybike/algorithms.py:11-20 | Merge sort returns an already sorted list unchanged. |
| `Algorithms.ShiftInsert` | citybike/algorithms.py:52-57 | The inner loop turns `a[0..i]` into the sorted prefix with `a[i]` inserted. It moves only elements with a strictly greater key and leaves the rest of the array untouched. |
| `Algorithms.InsertedAt` | citybike/algorithms.py:52-57 | Insertion places the held element right after the last element whose key is not above its own. Every element after it has a strictly greater key and moves up by one. |
| `Algorithms.InsertionSort` | citybike/algorithms.py:47-58 | The sort works on a copy and returns `InsertionSorted(data)`. After each outer step, the prefix `a[0..i]` is the insertion-sorted prefix of the input. |
| `Algorithms.InsertedPermutation` | citybike/algorithms.py:52-57 | One insertion step adds exactly the held element. |
| `Algorithms.InsertedSorted` | citybike/algorithms.py:52-57 | Inserting into a sorted prefix keeps it sorted. |
| `Algorithms.InsertedWithKey` | citybike/algorithms.py:54 | Because the shift test is strict, the inserted element is never moved past an element with an equal key. |
| `Algorithms.InsertionSortedPermutation` | citybike/algorithms.py:47-58 | Insertion sort returns a permutation of its input. |
| `Algorithms.InsertionSortedSorted` | citybike/algorithms.py:47-58 | Insertion sort's result is non-decreasing by key. |
| `Algorithms.InsertionSortedStable` | citybike/algorithms.py:47-58 | Insertion sort is stable. |
| `Algorithms.InsertionSortedOfSorted` | citybike/algorithms.py:47-58 | Insertion sort returns an already sorted list unchanged. |
| `Algorithms.SortsAgree` | citybike/algorithms.py:11-58 | Insertion sort and merge sort return the same list on every input. |
| `Algorithms.BinarySearch` | citybike/algorithms.py:64-82 | A returned index is in range and holds the target key, whatever the input. On input sorted by key, `None` means that no element has the target key. The loop terminates because `high - low` decreases. Empty input gives `None`. |
| `Algorithms.LinearSearch` | citybike/algorithms.py:88-105 | As written: empty data returns `None`. Any non-empty data raises `NameError` for `sorted_data`. |
| `Algorithms.FirstIndexOf` | citybike/algorithms.py:88-93 | The intended scan returns the first index whose key is the target, or `None` exactly when no element matches. |
| `Algorithms.LinearSearchExample` | citybike/algorithms.py:88-93 | On `[5, 3, 3, 7]` with target 3, the intended scan returns index 1. |
| `Models.Entity.Create` | citybike/models.py:13-17 | An empty id is rejected. Otherwise the entity keeps the id, and a missing creation time becomes the current time. |
| `Models.Bike.Create` | citybike/models.py:49-61 | The checks run in order: the id, then bike type in {classic, electric}, then status in the valid statuses. The bike succeeds exactly when all three pass, and it keeps the given values. |
| `Models.Bike.SetStatus` | citybike/models.py:71-75 | A status outside the valid set is rejected and status is unchanged. Otherwise status becomes the value. The invariant is kept. |
| `Models.ClassicBike.Create` | citybike/models.py:89-98 | The bike checks run with type "classic", then `gear_count` must be positive. The object keeps the gear count. |
| `Models.ElectricBike.Create` | citybike/models.py:116-131 | The bike checks run with type "electric". Then the battery level must be in [0, 100], then the range must be positive. |
| `Models.ElectricBike.SetBatteryLevel` | citybike/models.py:138-142 | A battery level outside [0, 100] is rejected and the level is unchanged. Otherwise it is assigned. The range is untouched. |
| `Models.ElectricBike.SetMaxRangeKm` | citybike/models.py:148-152 | A non-positive range is rejected and the range is unchanged. Otherwise it is assigned. The battery level is untouched. |
| `Models.Station.Create` | citybike/models.py:169-191 | The checks run in order: id, positive capacity, latitude in [-90, 90], longitude in [-180, 180]. The first that fails decides the error. |
| `Models.Station.SetCapacity` | citybike/models.py:197-201 | A non-positive capacity is rejected before assignment. Coordinates are untouched. |
| `Models.Station.SetLatitude` | citybike/models.py:207-211 | A latitude outside [-90, 90] is rejected before assignment. Other fields are untouched. |
| `Models.Station.SetLongitude` | citybike/models.py:217-221 | A longitude outside [-180, 180] is rejected before assignment. Other fields are untouched. |
| `Models.User.Create` | citybike/models.py:238-251 | After the id check, an email without "@" is rejected. |
| `Models.CasualUser.Create` | citybike/models.py:275-286 | The user checks run with type "casual", then the day-pass count must not be negative. |
| `Models.CasualUser.SetDayPassCount` | citybike/models.py:292-296 | A negative count is rejected and the count is unchanged. Otherwise it is assigned. |
| `Models.MemberUser.Create` | citybike/models.py:309-332 | A missing start becomes now and a missing end becomes the start. The end must be strictly after the start, so an omitted end always fails. Then the tier must be basic or premium. |
| `Models.MemberUser.SetTier` | citybike/models.py:347-351 | A tier other than basic or premium is rejected and the tier is unchanged. |
| `Models.Trip.Create` | citybike/models.py:368-394 | An end before the start is rejected; a zero-length trip is allowed. Then a negative distance is rejected. A created trip keeps all given values. |
| `Models.MaintenanceRecord.Create` | citybike/models.py:430-456 | As written, every call raises: an unknown type raises `ValueError`. A valid type raises `AttributeError`, because `maintenance_type` has no setter. |
| `Models.MaintenanceRecord.CreateIntended` | citybike/models.py:444-450 | As intended, construction succeeds exactly when the type is valid and the cost is not negative. Type errors come before cost errors. |
| `Factories.Lower` | citybike/factories.py:14 | The tag's lower-casing keeps its length, maps each letter to lower case and leaves no upper-case ASCII letter. |
| `Factories.CreateBike` | citybike/factories.py:12-28 | The tag is lower-cased, and a missing tag is "". "classic" gives a `ClassicBike` with 7 gears by default. "electric" gives an `ElectricBike` with battery 100.0 and range 50.0 by default. Any other tag raises `ValueError`. A missing `bike_id` raises `KeyError`, and model errors pass through unchanged. |
| `Factories.MissingUserKey` | citybike/factories.py:36-39 | Gives the first of `user_id`, `name`, `email` that is absent, in the order the source reads them. |
| `Factories.CreateUser` | citybike/factories.py:31-62 | The user type is lower-cased and defaults to "casual". A casual user gets 0 day passes by default. A member gets the lower-cased tier, "basic" by default, and the optional dates. Any other type raises `ValueError`. Model errors pass through unchanged. |

## Findings

| source | as written | input that shows it | evidently intended | confidence | as-written member | corrected member |
|---|---|---|---|---|---|---|
| citybike/algorithms.py:94-97 | The bisection body reads `sorted_data`, a name not defined in `linear_search`. | `data = [5, 3, 3, 7]`, `target = 3` raises `NameError`. Every non-empty list does. | A sequential scan that returns the first matching index, here 1. | high, not executed | `Algorithms.LinearSearch` | `Algorithms.FirstIndexOf` |
| citybike/models.py:446-456 | `self.maintenance_type = ...` (line 446) assigns to a property that has a getter and no setter. `self.cost = cost` (line 450) does the same for `cost` (lines 458-460), so fixing line 446 alone still raises. | `maintenance_type = "tire_repair"`, `cost = 10.0` raises `AttributeError`. Every valid type does. | Store the type and the cost, rejecting an invalid type, then a negative cost; both assignments corrected. | high, not executed | `Models.MaintenanceRecord.Create` | `Models.MaintenanceRecord.CreateIntended` |

## Left out

- `benchmark_sort` and `benchmark_search`: their results are wall-clock timings, rounded floats.
- citybike/analyzer.py, citybike/visualization.py, citybike/numerical.py and citybike/main.py are not part of this model. They are data loading, plotting, floating-point numerics and printing.
- Keys are integers. The source accepts any key with `<`, `<=` and `==`. Partially ordered keys, such as floats with NaN, are not modelled. Neither are exceptions raised by a key function.
- The `Entity` rejection of a non-string id is enforced by the types of the model.
- `__str__` and `__repr__` are not modelled. This includes the self-recursive `CasualUser.__str__` and the `email` property defined inside `User.__init__`, which leaves `User` objects without an `email` attribute.
- `Trip.duration_minutes` is a float division of a timedelta and is not modelled.
- Plain attributes that the source never validates are constant fields in the model. These include `name`, `station_id`, `user_type` and the trip times. Python code could reassign them freely; no model operation does.
- `datetime.now()` is the single parameter `now`. In `MemberUser` the source reads the clock twice, once for `created_at` and once for the default start.
- Floats are reals, so NaN and infinities are not modelled. In the source a NaN fails only the two-sided checks: battery level, latitude and longitude. It passes the one-sided checks `max_range_km <= 0` (citybike/models.py:129, 150), `distance_km < 0` (citybike/models.py:392) and, in the intended record, `cost < 0` (citybike/models.py:448), and is stored. On NaN the source therefore breaks the invariants `maxRangeKm > 0.0`, `distanceKm >= 0.0` and `cost >= 0.0` that the model proves.
- In the factories, `int(...)`, `float(...)` and `datetime.fromisoformat(...)` are not modelled, because dictionary values are taken as already parsed.
- For the same reason, the factories do not model `.lower()` on a non-string tag, and the truthiness test on membership dates is read as "present".
- `Lower` maps only ASCII letters. Python's `str.lower()` also maps other Unicode letters.
