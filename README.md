# MGEmu nonlinear-boost pipeline, modelled in Dafny

MGEmu evaluates trained cosmopower neural networks that predict the
nonlinear matter power-spectrum boost for modified-gravity models (f(R),
DGP, growth-index gamma, ...). This project models the package's own logic
around the network, all of it in `MG_boost` (`MGEmu/mg_boost.py`):

- **the emulator record** (`load_nonlinear_emu`, `MG_boost.__init__`): the
  network restored once, stored with its wavenumber grid (`k`, the
  network's `modes`) and its parameter names (`keys`, the network's
  `parameters`);
- **the parameter resolver** (`_get_parameters`): strips `k`, coerces every
  other value with `numpy.atleast_1d`, counts a parameter as available when
  the first element of its array is not `None`, raises `KeyError` naming
  the missing required parameters, and returns the coordinates restricted
  to the required keys;
- **the evaluator** (`_evaluate_nonlinear`): calls the network, then either
  returns the native grid with the raw predictions or checks the caller's
  wavenumbers against the grid (inclusive bounds) and linearly interpolates
  each redshift-bin row onto them, as `scipy.interpolate.interp1d` does;
- **the public entry point** (`get_nonlinear_boost`): gathers its named
  arguments through `locals()` minus `self`, so the `**kwargs` catch-all
  travels as a single entry named `kwargs`. A call is modelled by the
  dictionary of keyword arguments the caller passes; Python binds the twelve
  named parameters from it (each defaulting to `None`) and puts every other
  keyword into the catch-all.

Files:

- `py_values.dfy` (module `PyValues`): the loosely typed values callers
  pass (`None`, numbers as `real`, lists, dictionaries, other objects),
  `numpy.atleast_1d`, and the `Option`/`Result` wrappers.
- `interpolation.dfy` (module `Interpolation`): Python's `min`/`max`,
  `numpy.searchsorted`, interp1d's linear kernel, and the lemmas that it
  is the piecewise-linear interpolant of the table.
- `mg_boost.dfy` (module `MgBoost`): the network, emulator and `MG_boost`
  records, the resolver, the evaluator, the argument gathering and the
  lemmas about them.

Exceptions become the error values of `BoostError`: `MissingParameters`
(the resolver's `KeyError`), `RaggedArray` (the `ValueError` numpy raises at
line 39 on a ragged list), `EmptyArray` (the `IndexError` of `[0]` on an
empty array at line 43), `RedshiftNotAParameter` (the `KeyError` of
`pp['z']` at line 98), `InvalidWavenumbers` (the `TypeError`/`ValueError`
that `max`/`min` raise at line 100 on a `k` that is not a non-empty list of
numbers; nested lists as `k` are outside the model, see "Left out") and `WavenumbersOutOfRange` (the `ValueError` at line 101, carrying
the requested and the valid bounds).

The network is a value `Network(modes, parameters, predictionsNp)` whose
inference is an uninterpreted function. What the model assumes of it is
the predicate `Trained`: its grid is strictly increasing with at least two
modes, and for resolved parameters holding `z` it returns one row per
redshift bin, each row one value per mode.

Quirks of the code the model keeps:

- availability looks at the first element of the coerced array, not at the
  value as a whole, so `[None, 0.3]` counts as missing and `[0.3, None]` as
  supplied;
- the network is called (line 97) before the range check (line 100); in
  this model inference cannot fail, so the order shows only in which error
  wins: parameter errors always come first (`EvaluateReportsParameterErrors`);
- an empty array is not reported as a missing parameter but fails with an
  `IndexError`, even on a key the emulator does not need;
- likewise a ragged list (such as `[0.3, [0.3]]`) under any key but `k`
  makes `numpy.atleast_1d` raise `ValueError` at line 39, whether the
  emulator needs that key or not. This follows numpy 1.24 and later;
  `setup.py` does not pin numpy, and older versions build an object array
  with a warning instead.

## Model

| member | source | states |
|---|---|---|
| `PyValues.AtLeast1D` | MGEmu/mg_boost.py:39-41 | an array is kept as it is; any other value becomes a one-element array holding it (the resolver applies it only once no list is ragged, see `GetParameters`) |
| `PyValues.Shape` | MGEmu/mg_boost.py:39-41 | a value that is not a list has the empty shape; a list with a shape has its length as the first dimension; a ragged list has none |
| `PyValues.FlatListIsVector` | MGEmu/mg_boost.py:39-41 | a list of plain values (numbers, `None`, objects) is a 1-D array of its length |
| `PyValues.MixedItemsAreRagged` | MGEmu/mg_boost.py:39-41 | a list with two items of different shapes cannot be turned into an array |
| `PyValues.FirstElementDecidesProvided` | MGEmu/mg_boost.py:43-44 | for every value except the empty array, the coerced array is non-empty and its first element is not `None` exactly when the value counts as supplied |
| `PyValues.AtLeast1DIdempotent` | MGEmu/mg_boost.py:68-69 | coercing an already coerced value a second time changes nothing |
| `MgBoost.LoadNonlinearEmu` | MGEmu/mg_boost.py:158-167 | the record holds the restored network under `model_tot`, and its `k` and `keys` are that network's modes and parameters |
| `MgBoost.NewMGBoost` | MGEmu/mg_boost.py:19-26 | the instance keeps the given model name and verbosity and the loaded emulator; a trained network gives a valid instance |
| `MgBoost.Coerce` | MGEmu/mg_boost.py:39-41 | no contract of its own; specified by `CoercedEmptyExactly` and `CoercedFirstElementDecides` |
| `MgBoost.CoercedEmptyExactly` | MGEmu/mg_boost.py:39-44 | coercion yields an empty array exactly where a key other than `k` is bound to an empty array |
| `MgBoost.CoercedFirstElementDecides` | MGEmu/mg_boost.py:39-44 | without empty arrays, a key is in the available list exactly when it is supplied, and `k` never is |
| `MgBoost.GetParameters` | MGEmu/mg_boost.py:28-71 | fails with `RaggedArray` iff some non-`k` value is a ragged list; otherwise fails with `EmptyArray` iff some non-`k` value is an empty array; otherwise succeeds iff every required key is supplied, and fails with `KeyError` naming exactly the required keys not supplied (never an empty set); on success the key set is exactly the required keys and each value is the caller's value coerced to a 1-D array |
| `MgBoost.WavenumbersNeverAParameter` | MGEmu/mg_boost.py:39-48 | if `k` were a required key, resolution would always fail, reporting `k` missing whenever no list is ragged or empty |
| `MgBoost.ResolvedValues` | MGEmu/mg_boost.py:68-69 | extra caller keys are dropped; a required array value is returned unchanged and a required scalar as a length-1 array |
| `MgBoost.ResolverIgnoresUnneededKey` | MGEmu/mg_boost.py:43-69 | changing the value of a key the emulator does not need, between values numpy can coerce to non-empty arrays, leaves the resolver's result unchanged |
| `MgBoost.SameRaggedness` | MGEmu/mg_boost.py:39-41 | two coordinate sets that differ only at one key, bound to a coercible value in both, agree on whether some list is ragged |
| `MgBoost.RaggedUnneededKeyFails` | MGEmu/mg_boost.py:39-41 | a ragged list under any key but `k`, needed or not, makes resolution fail with `ValueError` |
| `MgBoost.SameEmptiness` | MGEmu/mg_boost.py:39-44 | two coordinate sets that differ only at one key, bound to a non-empty value in both, agree on whether some array is empty |
| `MgBoost.SameResolution` | MGEmu/mg_boost.py:68-69 | two successful resolutions of coordinates that differ only at a key the emulator does not need are equal |
| `MgBoost.Wavenumbers` | MGEmu/mg_boost.py:100 | a `k` is accepted by `max`/`min` iff it is a non-empty list of numbers, and then the extracted wavenumbers are those numbers in order |
| `MgBoost.RequestedK` | MGEmu/mg_boost.py:93 | no contract of its own; its use is stated by `EvaluateAfterResolution` |
| `MgBoost.EvaluateNonlinear` | MGEmu/mg_boost.py:74-116 | success implies the parameters resolved with a `z` entry, the result has one row per redshift bin, and every row is as long as the returned wavenumber array |
| `MgBoost.EvaluateResolved` | MGEmu/mg_boost.py:96-116 | once the parameters are resolved, success implies they hold `z`, there is one row per redshift bin, and every row is as long as the returned wavenumber array |
| `MgBoost.EvaluateAfterResolution` | MGEmu/mg_boost.py:93-97 | when resolution succeeds, evaluation continues with the resolved parameters and with `k` taken from the keyword arguments (`None` when absent), nothing else |
| `MgBoost.EvaluateReportsParameterErrors` | MGEmu/mg_boost.py:93-100 | a resolver error is the evaluation's error whatever `k` is: resolution precedes the range check |
| `MgBoost.EvaluateNeedsRedshift` | MGEmu/mg_boost.py:98 | resolved parameters without a `z` entry fail with `KeyError`, whatever `k` is |
| `MgBoost.EvaluateWithoutWavenumbers` | MGEmu/mg_boost.py:113-116 | with `k` absent or `None`, the result is the emulator's grid and the raw predictions, both unchanged |
| `MgBoost.EvaluateRejectsMalformedWavenumbers` | MGEmu/mg_boost.py:100 | a `k` that is given but is not a non-empty list of numbers fails in `max`/`min` |
| `MgBoost.EvaluateComparesExtrema` | MGEmu/mg_boost.py:100-106 | with caller `k`, evaluation fails iff max(k) exceeds the grid's maximum or min(k) is below its minimum, and then with an error carrying min(k), max(k) and the grid's extrema |
| `MgBoost.EvaluateRangeCheck` | MGEmu/mg_boost.py:99-106 | with caller `k`, evaluation fails iff some requested wavenumber is below the grid's first or above its last mode (end points accepted), and the error carries min(k), max(k) and the grid's bounds |
| `MgBoost.Resampled` | MGEmu/mg_boost.py:108-112 | no contract of its own; specified by `EvaluateInterpolates` (entry by entry) and `EvaluateAtNativeGrid` |
| `MgBoost.EvaluateInRange` | MGEmu/mg_boost.py:107-112 | with in-range `k`, evaluation succeeds with the caller's wavenumbers and the prediction rows resampled onto them, one per redshift bin |
| `MgBoost.EvaluateInterpolates` | MGEmu/mg_boost.py:108-112 | with in-range `k`, the output has `len(z)` rows of `len(k)` values; entry (i, j) is the linear interpolant of prediction row i at k[j] and lies within that row's minimum and maximum |
| `MgBoost.EvaluateAtNativeGrid` | MGEmu/mg_boost.py:108-112 | asking for exactly the emulator's grid returns the grid and the raw predictions unchanged |
| `MgBoost.EvaluateSeesOnlyParametersAndK` | MGEmu/mg_boost.py:93-116 | evaluation depends on its keyword arguments only through the resolved parameters and the requested `k` |
| `MgBoost.BindNamed` | MGEmu/mg_boost.py:119-124 | no contract of its own; specified by `GatherArguments` |
| `MgBoost.CatchAll` | MGEmu/mg_boost.py:124 | no contract of its own; specified by `GatherArguments` |
| `MgBoost.Locals` | MGEmu/mg_boost.py:133 | no contract of its own; specified by `GatherArguments` |
| `MgBoost.GatherArguments` | MGEmu/mg_boost.py:119-135 | the forwarded dictionary holds exactly the twelve named parameters plus `kwargs`, never `self`; each named parameter holds the caller's keyword value or `None`, and `kwargs` holds exactly the caller's keywords that name no parameter |
| `MgBoost.AgreeOutsideKwargs` | MGEmu/mg_boost.py:119-135 | two calls that differ only in a keyword naming no parameter forward dictionaries with the same keys that agree everywhere except at `kwargs` |
| `MgBoost.GetNonlinearBoost` | MGEmu/mg_boost.py:119-139 | on success every boost row is as long as the returned wavenumber array |
| `MgBoost.ExtraKeywordsNeverSeen` | MGEmu/mg_boost.py:119-137 | adding or changing a keyword that names no parameter cannot change the result unless an emulator lists `kwargs` itself among its parameters |
| `MgBoost.UnnamedParameterNeverSupplied` | MGEmu/mg_boost.py:119-137 | an emulator parameter that is `k` or not a named argument of the entry point can never be supplied, so every call fails and names it when reporting missing parameters |
| `MgBoost.DefaultsSupplyNothing` | MGEmu/mg_boost.py:119-137 | a call passing no keyword fails naming every required parameter except one called `kwargs` |
| `Interpolation.SeqMin` | MGEmu/mg_boost.py:100 | `min` of a non-empty list is one of its elements and no element is smaller |
| `Interpolation.SeqMax` | MGEmu/mg_boost.py:100 | `max` of a non-empty list is one of its elements and no element is larger |
| `Interpolation.IncreasingExtrema` | MGEmu/mg_boost.py:100 | the minimum and maximum of a strictly increasing grid are its first and last modes |
| `Interpolation.SearchSortedLeft` | MGEmu/mg_boost.py:108-112 | the search position is the first index whose grid value is at least the point; every earlier value is below it |
| `Interpolation.Interp` | MGEmu/mg_boost.py:108-112 | no contract of its own; specified by `InterpIsChordOfSegment`, `InterpOnSegment`, `InterpAtNode` and `InterpWithinRange` |
| `Interpolation.InterpolateRow` | MGEmu/mg_boost.py:112 | no contract of its own; specified by `InterpolateRowAtGrid` and, entry by entry, `EvaluateInterpolates` |
| `Interpolation.SegmentOf` | MGEmu/mg_boost.py:108-112 | the selected segment is a segment of the grid, and for a point inside a strictly increasing grid it is one whose end points enclose the point |
| `Interpolation.InterpIsChordOfSegment` | MGEmu/mg_boost.py:108-112 | interp1d's value is the straight line through the two table points of the segment the search selects |
| `Interpolation.ChordAtEnds` | MGEmu/mg_boost.py:108-112 | a segment's straight line passes through both of its table points |
| `Interpolation.ChordBetweenEnds` | MGEmu/mg_boost.py:108-112 | on its segment, the straight line stays between the two end values |
| `Interpolation.InterpOnSegment` | MGEmu/mg_boost.py:108-112 | inside the grid, interp1d's linear value equals the chord of any segment containing the point, including both segments at a shared node |
| `Interpolation.InterpAtNode` | MGEmu/mg_boost.py:108-112 | at a grid node the interpolant returns the tabulated value |
| `Interpolation.InterpolateRowAtGrid` | MGEmu/mg_boost.py:112 | interpolating a row onto its own grid reproduces the row |
| `Interpolation.InterpBetweenNeighbours` | MGEmu/mg_boost.py:108-112 | on a segment the interpolant lies between the segment's two tabulated values |
| `Interpolation.InterpWithinRange` | MGEmu/mg_boost.py:108-112 | inside the grid the interpolant stays within the minimum and maximum of the tabulated values |
| `Interpolation.OutsideGridIff` | MGEmu/mg_boost.py:100 | on a strictly increasing grid, comparing max and min of the request with the grid's is the same as asking whether some requested point lies outside the grid's end points |

## Left out

- The cosmopower network itself (`cosmopower_NN(restore=True, ...)` and
  `predictions_np`, lines 97 and 159-161): a foreign call, modelled as an
  uninterpreted function with only the shape facts in `Trained`. Failures
  inside it (for example parameter arrays of different lengths) are not
  modelled.
- The model-file path built at lines 156-157 (and its `_v1` suffix from
  line 9): file-system configuration. `NewMGBoost` and `LoadNonlinearEmu`
  take the restored network as a parameter instead.
- Verbose output (lines 52-53, 153-154, 165): printing only.
- The list `pp` at line 58 and the commented-out bounds check at lines
  60-67: they have no effect on the result.
- scipy's interp1d machinery beyond the linear kernel (sorting of the grid,
  `bounds_error` handling): the grid is taken as strictly increasing and
  the explicit range check rules out extrapolation.
- Floating point: numbers are `real`, so rounding in the interpolation is
  not modelled.
- Dictionary and set iteration order: the resolver's result is a map, and
  the order of the missing names in the `KeyError` message is not
  modelled (the error carries them as a set).
- `MGEmu/__init__.py` `download_data` (network download, unzip, file
  deletion at import) and `setup.py` (packaging): I/O and metadata only.
- MgBoost.Wavenumbers: a `k` made of nested lists is rejected as
  `InvalidWavenumbers`. In Python, a list of one-element lists such as
  `[[0.6]]` passes line 100, because the list `max(k)` is compared with
  the numpy number `max(emulator['k'])` by broadcasting (assuming the
  network keeps its modes as a numpy array). The interpolation then
  returns rows of a different shape, which the result type of this model
  cannot hold.
- MgBoost.EvaluateRejectsMalformedWavenumbers: holds of the model; in
  Python the nested `k` described above is accepted.
- numpy arrays passed by the caller are modelled as lists; a
  multi-dimensional `k` passed as an array is outside the model for the
  same reason.
- A keyword argument named `self`: Python refuses such a call before the
  body of `get_nonlinear_boost` runs, so `GatherArguments` and
  `GetNonlinearBoost` require that the caller's keywords do not include it.
  Positional arguments are not modelled; every argument is passed by
  keyword.
- The `self.emulator` dictionary with its single `'nonlinear'` entry is
  modelled as the `nonlinear` field of the `MGBoost` record.
