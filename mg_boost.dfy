/** The `MG_boost` emulator front end: the emulator record loaded once, the
    parameter resolver, the boost evaluator with its optional resampling onto
    caller wavenumbers, and the keyword-argument gathering of the public
    entry point. */
module MgBoost {
  import opened PyValues
  import opened Interpolation

  /** A trained cosmopower network as restored from disk. Its inference,
      `predictions_np`, is a foreign call and is kept abstract. */
  datatype Network = Network(
    modes: seq<real>,
    parameters: seq<string>,
    predictionsNp: map<string, seq<PyValue>> -> seq<seq<real>>)

  /** What is known of a trained network: its wavenumber grid is strictly
      increasing with at least two modes, and it predicts one row per
      redshift bin, each row one value per mode. */
  ghost predicate Trained(net: Network) {
    && |net.modes| >= 2
    && StrictlyIncreasing(net.modes)
    && forall pp: map<string, seq<PyValue>> | "z" in pp ::
         && |net.predictionsNp(pp)| == |pp["z"]|
         && forall row :: row in net.predictionsNp(pp) ==> |row| == |net.modes|
  }

  /** The dictionary `load_nonlinear_emu` returns: the network under
      `model_tot`, its grid under `k` and its parameter names under `keys`. */
  datatype Emulator = Emulator(modelTot: Network, k: seq<real>, keys: seq<string>)

  /** An `MG_boost` instance; its `emulator['nonlinear']` entry is the
      `nonlinear` field. */
  datatype MGBoost = MGBoost(verbose: bool, model: string, nonlinear: Emulator)

  ghost predicate Consistent(e: Emulator) {
    e.k == e.modelTot.modes && e.keys == e.modelTot.parameters
  }

  ghost predicate Valid(mg: MGBoost) {
    Consistent(mg.nonlinear) && Trained(mg.nonlinear.modelTot)
  }

  /** `load_nonlinear_emu`, given the network restored from the model file. */
  function LoadNonlinearEmu(restored: Network): (e: Emulator)
    ensures e.modelTot == restored
    ensures Consistent(e)
  {
    Emulator(restored, restored.modes, restored.parameters)
  }

  /** `MG_boost.__init__`: loads the emulator once; nothing changes it
      afterwards. */
  function NewMGBoost(verbose: bool, model: string, restored: Network): (mg: MGBoost)
    ensures mg.model == model && mg.verbose == verbose
    ensures mg.nonlinear.modelTot == restored
    ensures Trained(restored) ==> Valid(mg)
  {
    MGBoost(verbose, model, LoadNonlinearEmu(restored))
  }

  /** The ways an evaluation can fail. */
  datatype BoostError =
    | MissingParameters(missing: set<string>)  // KeyError from the resolver
    | RaggedArray                             // ValueError: `atleast_1d` of a ragged list
    | EmptyArray                              // IndexError: `[0]` of an empty array
    | RedshiftNotAParameter                   // KeyError: `pp['z']`
    | InvalidWavenumbers                      // `max`/`min` of a `k` that is no list of numbers
    | WavenumbersOutOfRange(kMin: real, kMax: real, gridMin: real, gridMax: real)  // ValueError

  /** Whether the coordinates supply parameter `p`. The `k` entry never
      does: it is a query axis. */
  predicate Supplied(coordinates: map<string, PyValue>, p: string) {
    p != "k" && p in coordinates && IsProvided(coordinates[p])
  }

  /** Some coordinate other than `k` is bound to a ragged list, from which
      numpy cannot build an array. */
  predicate HasRaggedArray(coordinates: map<string, PyValue>) {
    exists key :: key in coordinates && key != "k" && Shape(coordinates[key]).None?
  }

  /** Some coordinate other than `k` is bound to an empty array. */
  predicate HasEmptyArray(coordinates: map<string, PyValue>) {
    exists key :: key in coordinates && key != "k" && coordinates[key] == PyList([])
  }

  /** The coordinates without `k`, each coerced to a 1-D array. */
  function Coerce(coordinates: map<string, PyValue>): map<string, seq<PyValue>> {
    map key | key in coordinates && key != "k" :: AtLeast1D(coordinates[key])
  }

  /** Coercion yields an empty array exactly where the caller bound a key
      other than `k` to an empty array. */
  lemma CoercedEmptyExactly(coordinates: map<string, PyValue>)
    ensures (exists key :: key in Coerce(coordinates) && Coerce(coordinates)[key] == [])
            <==> HasEmptyArray(coordinates)
  {
    if HasEmptyArray(coordinates) {
      var key :| key in coordinates && key != "k" && coordinates[key] == PyList([]);
      assert Coerce(coordinates)[key] == [];
    }
  }

  /** Once no array is empty, a coerced entry's first element is not
      `None` exactly for the supplied parameters. */
  lemma CoercedFirstElementDecides(coordinates: map<string, PyValue>)
    requires !HasEmptyArray(coordinates)
    ensures forall p :: p in Coerce(coordinates) ==> |Coerce(coordinates)[p]| > 0
    ensures forall p :: p in Coerce(coordinates) && Coerce(coordinates)[p][0] != PyNone <==> Supplied(coordinates, p)
  {
    forall p | p in Coerce(coordinates)
      ensures |Coerce(coordinates)[p]| > 0
      ensures Coerce(coordinates)[p][0] != PyNone <==> IsProvided(coordinates[p])
    {
      FirstElementDecidesProvided(coordinates[p]);
    }
  }

  lemma NothingMissing(required: seq<string>, available: set<string>)
    requires (set p | p in required) - available == {}
    ensures forall p :: p in required ==> p in available
  {
    forall p | p in required
      ensures p in available
    {
      assert p in (set q | q in required);
      assert p !in (set q | q in required) - available;
    }
  }

  /** `MG_boost._get_parameters`. */
  function GetParameters(mg: MGBoost, coordinates: map<string, PyValue>)
    : (r: Result<map<string, seq<PyValue>>, BoostError>)
    ensures r.Failure? ==> r.error.RaggedArray? || r.error.EmptyArray? || r.error.MissingParameters?
    ensures r == Failure(RaggedArray) <==> HasRaggedArray(coordinates)
    ensures r == Failure(EmptyArray) <==> !HasRaggedArray(coordinates) && HasEmptyArray(coordinates)
    ensures r.Success? <==>
      && !HasRaggedArray(coordinates) && !HasEmptyArray(coordinates)
      && forall p :: p in mg.nonlinear.keys ==> Supplied(coordinates, p)
    ensures r.Failure? && r.error.MissingParameters? ==>
      && r.error.missing != {}
      && r.error.missing == set p | p in mg.nonlinear.keys && !Supplied(coordinates, p)
    ensures r.Success? ==> forall p :: p in r.value <==> p in mg.nonlinear.keys
    ensures r.Success? ==> forall p :: p in r.value ==> r.value[p] == AtLeast1D(coordinates[p])
  {
    // `atleast_1d` raises on a ragged list before any element is looked at
    if exists key :: key in coordinates && key != "k" && Shape(coordinates[key]).None? then
      Failure(RaggedArray)
    else
      var c := Coerce(coordinates);
      CoercedEmptyExactly(coordinates);
      if exists key :: key in c && c[key] == [] then
        Failure(EmptyArray)
      else
        CoercedFirstElementDecides(coordinates);
        var available := set key | key in c && c[key][0] != PyNone;
        var missing := (set p | p in mg.nonlinear.keys) - available;
        if missing != {} then
          Failure(MissingParameters(missing))
        else
          NothingMissing(mg.nonlinear.keys, available);
          Success(map p | p in mg.nonlinear.keys :: c[p])
  }

  /** The caller's `k` as a list of numbers, when `max` and `min` accept it:
      a non-empty list whose every element is a number. */
  function Wavenumbers(v: PyValue): (ks: Option<seq<real>>)
    ensures ks.Some? <==>
      v.PyList? && |v.items| > 0 && forall i :: 0 <= i < |v.items| ==> v.items[i].PyReal?
    ensures ks.Some? ==>
      |ks.value| == |v.items| && forall i :: 0 <= i < |v.items| ==> v.items[i] == PyReal(ks.value[i])
  {
    if v.PyList? && |v.items| > 0 && forall i :: 0 <= i < |v.items| ==> v.items[i].PyReal? then
      Some(seq(|v.items|, i requires 0 <= i < |v.items| => v.items[i].r))
    else
      None
  }

  /** The wavenumbers the caller asked for, `None` when `k` is absent or
      bound to `None`. */
  function RequestedK(kwargs: map<string, PyValue>): PyValue {
    if "k" in kwargs then kwargs["k"] else PyNone
  }

  /** `MG_boost._evaluate_nonlinear`: resolve the parameters, then carry
      on with `EvaluateResolved`. */
  function EvaluateNonlinear(mg: MGBoost, kwargs: map<string, PyValue>)
    : (r: Result<(seq<real>, seq<seq<real>>), BoostError>)
    requires Valid(mg)
    ensures r.Success? ==> GetParameters(mg, kwargs).Success?
    ensures r.Success? ==>
      var pp := GetParameters(mg, kwargs).value;
      "z" in pp && |r.value.1| == |pp["z"]|
    ensures r.Success? ==> forall row :: row in r.value.1 ==> |row| == |r.value.0|
  {
    match GetParameters(mg, kwargs)
    case Failure(e) => Failure(e)
    case Success(pp) => EvaluateResolved(mg.nonlinear, pp, RequestedK(kwargs))
  }

  /** The rest of `_evaluate_nonlinear` once the parameters `pp` are
      resolved: call the network, count the redshift bins, then either
      return the native grid with the raw predictions or check the caller's
      wavenumbers against the grid and interpolate each redshift bin onto
      them. */
  function EvaluateResolved(emulator: Emulator, pp: map<string, seq<PyValue>>, k: PyValue)
    : (r: Result<(seq<real>, seq<seq<real>>), BoostError>)
    requires Consistent(emulator) && Trained(emulator.modelTot)
    ensures r.Success? ==> "z" in pp && |r.value.1| == |pp["z"]|
    ensures r.Success? ==> forall row :: row in r.value.1 ==> |row| == |r.value.0|
  {
    var boostNonlin := emulator.modelTot.predictionsNp(pp);
    if "z" !in pp then
      Failure(RedshiftNotAParameter)
    else
      var zbins := |pp["z"]|;
      if k == PyNone then
        Success((emulator.k, boostNonlin))
      else
        match Wavenumbers(k)
        case None => Failure(InvalidWavenumbers)
        case Some(ks) =>
          if SeqMax(ks) > SeqMax(emulator.k) || SeqMin(ks) < SeqMin(emulator.k) then
            Failure(WavenumbersOutOfRange(SeqMin(ks), SeqMax(ks), SeqMin(emulator.k), SeqMax(emulator.k)))
          else
            Success((ks, seq(zbins, i requires 0 <= i < zbins =>
                              InterpolateRow(emulator.k, boostNonlin[i], ks))))
  }

  /** The named parameters of `get_nonlinear_boost` after `self`; each
      defaults to `None`. */
  const NamedParameters: set<string> :=
    {"Omega_m", "Omega_b", "H0", "ns", "Omega_nu", "As",
     "fR0", "omegarc", "gamma", "q1", "z", "k"}

  /** Python's binding of a call's keyword arguments to the named
      parameters: a parameter the caller did not pass keeps its `None`
      default. */
  function BindNamed(keywords: map<string, PyValue>): map<string, PyValue> {
    map name | name in NamedParameters :: if name in keywords then keywords[name] else PyNone
  }

  /** The `**kwargs` catch-all: every keyword that names no parameter. */
  function CatchAll(keywords: map<string, PyValue>): map<string, PyValue> {
    map key | key in keywords && key !in NamedParameters :: keywords[key]
  }

  /** What `locals()` sees on entry to `get_nonlinear_boost`: `self`, every
      named parameter, and the catch-all as one dictionary named `kwargs`. */
  function Locals(keywords: map<string, PyValue>): map<string, PyValue> {
    BindNamed(keywords)["self" := PyObject]["kwargs" := PyDict(CatchAll(keywords))]
  }

  /** The dictionary `get_nonlinear_boost` forwards: its locals minus
      `self`. A keyword `self` is refused by Python before the body runs
      ("got multiple values for argument 'self'"), hence the precondition. */
  function GatherArguments(keywords: map<string, PyValue>): (kwargs: map<string, PyValue>)
    requires "self" !in keywords
    ensures kwargs.Keys == NamedParameters + {"kwargs"}
    ensures "self" !in kwargs
    ensures forall name :: name in NamedParameters ==>
      kwargs[name] == (if name in keywords then keywords[name] else PyNone)
    ensures kwargs["kwargs"].PyDict?
    ensures forall key :: key in kwargs["kwargs"].entries <==> key in keywords && key !in NamedParameters
    ensures forall key :: key in kwargs["kwargs"].entries ==> kwargs["kwargs"].entries[key] == keywords[key]
  {
    var frame := Locals(keywords);
    map key | key in frame && key != "self" :: frame[key]
  }

  /** `MG_boost.get_nonlinear_boost`, called with the keyword arguments
      `keywords`. */
  function GetNonlinearBoost(mg: MGBoost, keywords: map<string, PyValue>)
    : (r: Result<(seq<real>, seq<seq<real>>), BoostError>)
    requires Valid(mg) && "self" !in keywords
    ensures r.Success? ==> forall row :: row in r.value.1 ==> |row| == |r.value.0|
  {
    EvaluateNonlinear(mg, GatherArguments(keywords))
  }

  /* ---------------------------------------------------------------------
     Properties of the resolver
     --------------------------------------------------------------------- */

  /** `k` is stripped before availability is computed, so an emulator
      that listed `k` among its parameters could never be evaluated. */
  lemma WavenumbersNeverAParameter(mg: MGBoost, coordinates: map<string, PyValue>)
    requires "k" in mg.nonlinear.keys
    ensures GetParameters(mg, coordinates).Failure?
    ensures !HasRaggedArray(coordinates) && !HasEmptyArray(coordinates) ==>
      var r := GetParameters(mg, coordinates);
      r.error.MissingParameters? && "k" in r.error.missing
  {
  }

  /** Keys the emulator does not need are dropped from the result, and
      what is kept is the caller's value itself when it was already an
      array, or a one-element array around a scalar. */
  lemma ResolvedValues(mg: MGBoost, coordinates: map<string, PyValue>, p: string)
    requires GetParameters(mg, coordinates).Success?
    ensures p in GetParameters(mg, coordinates).value <==> p in mg.nonlinear.keys
    ensures p in mg.nonlinear.keys && coordinates[p].PyList? ==>
      GetParameters(mg, coordinates).value[p] == coordinates[p].items
    ensures p in mg.nonlinear.keys && !coordinates[p].PyList? ==>
      GetParameters(mg, coordinates).value[p] == [coordinates[p]]
  {
  }

  /* ---------------------------------------------------------------------
     Properties of the evaluator
     --------------------------------------------------------------------- */

  /** A parameter error is reported whatever the wavenumbers are: the
      resolver runs before `k` is looked at. */
  lemma EvaluateReportsParameterErrors(mg: MGBoost, kwargs: map<string, PyValue>)
    requires Valid(mg)
    requires GetParameters(mg, kwargs).Failure?
    ensures EvaluateNonlinear(mg, kwargs) == Failure(GetParameters(mg, kwargs).error)
  {
  }

  /** Once the parameters resolve, the caller's keyword arguments matter
      only through `k`. */
  lemma EvaluateAfterResolution(mg: MGBoost, kwargs: map<string, PyValue>)
    requires Valid(mg)
    requires GetParameters(mg, kwargs).Success?
    ensures EvaluateNonlinear(mg, kwargs)
      == EvaluateResolved(mg.nonlinear, GetParameters(mg, kwargs).value, RequestedK(kwargs))
  {
  }

  /** An emulator without a `z` parameter fails after resolution, before
      the wavenumbers are looked at. */
  lemma EvaluateNeedsRedshift(emulator: Emulator, pp: map<string, seq<PyValue>>, k: PyValue)
    requires Consistent(emulator) && Trained(emulator.modelTot)
    requires "z" !in pp
    ensures EvaluateResolved(emulator, pp, k) == Failure(RedshiftNotAParameter)
  {
  }

  /** Without caller wavenumbers the result is the emulator's own grid and
      the network's raw predictions, both unchanged. */
  lemma EvaluateWithoutWavenumbers(emulator: Emulator, pp: map<string, seq<PyValue>>)
    requires Consistent(emulator) && Trained(emulator.modelTot)
    requires "z" in pp
    ensures EvaluateResolved(emulator, pp, PyNone)
      == Success((emulator.k, emulator.modelTot.predictionsNp(pp)))
  {
  }

  /** A `k` that is given but is not a non-empty list of numbers makes
      `max`/`min` fail. */
  lemma EvaluateRejectsMalformedWavenumbers(emulator: Emulator, pp: map<string, seq<PyValue>>, k: PyValue)
    requires Consistent(emulator) && Trained(emulator.modelTot)
    requires "z" in pp
    requires k != PyNone && Wavenumbers(k).None?
    ensures EvaluateResolved(emulator, pp, k) == Failure(InvalidWavenumbers)
  {
  }

  /** With caller wavenumbers, evaluation fails exactly when the `max`/`min`
      comparison of line 100 fires. */
  lemma EvaluateComparesExtrema(emulator: Emulator, pp: map<string, seq<PyValue>>, k: PyValue, ks: seq<real>)
    requires Consistent(emulator) && Trained(emulator.modelTot)
    requires "z" in pp
    requires k != PyNone && Wavenumbers(k) == Some(ks)
    ensures var grid := emulator.k;
      var outside := SeqMax(ks) > SeqMax(grid) || SeqMin(ks) < SeqMin(grid);
      && (EvaluateResolved(emulator, pp, k).Failure? <==> outside)
      && (outside ==> EvaluateResolved(emulator, pp, k)
                        == Failure(WavenumbersOutOfRange(SeqMin(ks), SeqMax(ks), SeqMin(grid), SeqMax(grid))))
  {
  }

  /** The range check: evaluation fails exactly when some requested
      wavenumber lies below the first or above the last mode of the grid;
      the grid's end points themselves are accepted. The error reports the
      requested and the valid bounds. */
  lemma EvaluateRangeCheck(emulator: Emulator, pp: map<string, seq<PyValue>>, k: PyValue, ks: seq<real>)
    requires Consistent(emulator) && Trained(emulator.modelTot)
    requires "z" in pp
    requires k != PyNone && Wavenumbers(k) == Some(ks)
    ensures var grid := emulator.k;
      EvaluateResolved(emulator, pp, k).Failure? <==>
        exists j :: 0 <= j < |ks| && (ks[j] < grid[0] || ks[j] > grid[|grid| - 1])
    ensures var grid := emulator.k;
      EvaluateResolved(emulator, pp, k).Failure? ==>
        EvaluateResolved(emulator, pp, k)
          == Failure(WavenumbersOutOfRange(SeqMin(ks), SeqMax(ks), grid[0], grid[|grid| - 1]))
  {
    IncreasingExtrema(emulator.k);
    EvaluateComparesExtrema(emulator, pp, k, ks);
    OutsideGridIff(ks, emulator.k);
  }

  /** The rows an in-range evaluation returns: prediction row i
      interpolated onto the requested wavenumbers. */
  function Resampled(grid: seq<real>, raw: seq<seq<real>>, ks: seq<real>): seq<seq<real>>
    requires forall i :: 0 <= i < |raw| ==> ValidTable(grid, raw[i])
  {
    seq(|raw|, i requires 0 <= i < |raw| => InterpolateRow(grid, raw[i], ks))
  }

  /** With in-range wavenumbers evaluation succeeds with the requested
      wavenumbers and the resampled prediction rows, one per redshift bin. */
  lemma EvaluateInRange(emulator: Emulator, pp: map<string, seq<PyValue>>, k: PyValue, ks: seq<real>)
    requires Consistent(emulator) && Trained(emulator.modelTot)
    requires "z" in pp
    requires k != PyNone && Wavenumbers(k) == Some(ks)
    requires forall j :: 0 <= j < |ks| ==> emulator.k[0] <= ks[j] <= emulator.k[|emulator.k| - 1]
    ensures var raw := emulator.modelTot.predictionsNp(pp);
      && |raw| == |pp["z"]|
      && (forall i :: 0 <= i < |raw| ==> ValidTable(emulator.k, raw[i]))
      && EvaluateResolved(emulator, pp, k) == Success((ks, Resampled(emulator.k, raw, ks)))
  {
    var raw := emulator.modelTot.predictionsNp(pp);
    IncreasingExtrema(emulator.k);
    assert forall i :: 0 <= i < |raw| ==> raw[i] in raw;
  }

  /** With in-range wavenumbers the result has one row per redshift bin and
      one column per requested wavenumber; entry (i, j) is the linear
      interpolant of prediction row i at ks[j], and it never leaves the
      range of that prediction row. */
  lemma EvaluateInterpolates(emulator: Emulator, pp: map<string, seq<PyValue>>, k: PyValue, ks: seq<real>)
    requires Consistent(emulator) && Trained(emulator.modelTot)
    requires "z" in pp
    requires k != PyNone && Wavenumbers(k) == Some(ks)
    requires forall j :: 0 <= j < |ks| ==> emulator.k[0] <= ks[j] <= emulator.k[|emulator.k| - 1]
    ensures var grid := emulator.k;
      var raw := emulator.modelTot.predictionsNp(pp);
      var r := EvaluateResolved(emulator, pp, k);
      && r.Success? && r.value.0 == ks
      && |r.value.1| == |pp["z"]| == |raw|
      && forall i :: 0 <= i < |raw| ==>
           && ValidTable(grid, raw[i])
           && |r.value.1[i]| == |ks|
           && forall j :: 0 <= j < |ks| ==>
                && r.value.1[i][j] == Interp(grid, raw[i], ks[j])
                && SeqMin(raw[i]) <= r.value.1[i][j] <= SeqMax(raw[i])
  {
    var grid := emulator.k;
    var raw := emulator.modelTot.predictionsNp(pp);
    EvaluateInRange(emulator, pp, k, ks);
    var rows := Resampled(grid, raw, ks);
    forall i, j | 0 <= i < |raw| && 0 <= j < |ks|
      ensures rows[i][j] == Interp(grid, raw[i], ks[j])
      ensures SeqMin(raw[i]) <= rows[i][j] <= SeqMax(raw[i])
    {
      InterpWithinRange(grid, raw[i], ks[j]);
    }
  }

  /** Asking for the emulator's own grid gives back the raw predictions:
      interpolation is the identity at the sample points. */
  lemma EvaluateAtNativeGrid(emulator: Emulator, pp: map<string, seq<PyValue>>)
    requires Consistent(emulator) && Trained(emulator.modelTot)
    requires "z" in pp
    ensures var grid := emulator.k;
      var k := PyList(seq(|grid|, i requires 0 <= i < |grid| => PyReal(grid[i])));
      EvaluateResolved(emulator, pp, k) == Success((grid, emulator.modelTot.predictionsNp(pp)))
  {
    var grid := emulator.k;
    var k := PyList(seq(|grid|, i requires 0 <= i < |grid| => PyReal(grid[i])));
    var raw := emulator.modelTot.predictionsNp(pp);
    var ks := Wavenumbers(k).value;
    assert ks == grid;
    EvaluateInRange(emulator, pp, k, ks);
    var rows := Resampled(grid, raw, ks);
    forall i | 0 <= i < |raw|
      ensures rows[i] == raw[i]
    {
      InterpolateRowAtGrid(grid, raw[i]);
    }
    assert rows == raw;
  }

  /* ---------------------------------------------------------------------
     Properties of the argument gathering
     --------------------------------------------------------------------- */

  /** Changing the value of a key the emulator does not need, between two
      non-empty values, leaves the resolver's result unchanged. */
  lemma ResolverIgnoresUnneededKey(mg: MGBoost, c1: map<string, PyValue>, c2: map<string, PyValue>, q: string)
    requires c1.Keys == c2.Keys
    requires forall key :: key in c1 && key != q ==> c1[key] == c2[key]
    requires q !in mg.nonlinear.keys
    requires q in c1 ==> c1[q] != PyList([]) && c2[q] != PyList([])
    requires q in c1 ==> Shape(c1[q]).Some? && Shape(c2[q]).Some?
    ensures GetParameters(mg, c1) == GetParameters(mg, c2)
  {
    SameRaggedness(c1, c2, q);
    SameEmptiness(c1, c2, q);
    assert forall p :: p in mg.nonlinear.keys ==> (Supplied(c1, p) <==> Supplied(c2, p));
    var r1, r2 := GetParameters(mg, c1), GetParameters(mg, c2);
    if r1.Success? {
      SameResolution(mg, c1, c2, q);
    } else if r1.error.MissingParameters? {
      assert r1.error.missing == r2.error.missing;
    }
  }

  /** The successful case of the lemma above: both resolutions keep the
      same keys with the same coerced values. */
  lemma SameResolution(mg: MGBoost, c1: map<string, PyValue>, c2: map<string, PyValue>, q: string)
    requires forall key :: key in c1 && key != q ==> key in c2 && c1[key] == c2[key]
    requires q !in mg.nonlinear.keys
    requires GetParameters(mg, c1).Success? && GetParameters(mg, c2).Success?
    ensures GetParameters(mg, c1) == GetParameters(mg, c2)
  {
    var v1, v2 := GetParameters(mg, c1).value, GetParameters(mg, c2).value;
    assert forall p :: p in v1 <==> p in mg.nonlinear.keys;
    assert forall p :: p in v2 <==> p in mg.nonlinear.keys;
    forall p | p in mg.nonlinear.keys
      ensures v1[p] == v2[p]
    {
      assert v1[p] == AtLeast1D(c1[p]) && v2[p] == AtLeast1D(c2[p]);
    }
    assert v1 == v2;
  }

  /** Two coordinate sets that differ only at a key bound to an array in
      both agree on whether some list is ragged. */
  lemma SameRaggedness(c1: map<string, PyValue>, c2: map<string, PyValue>, q: string)
    requires c1.Keys == c2.Keys
    requires forall key :: key in c1 && key != q ==> c1[key] == c2[key]
    requires q in c1 ==> Shape(c1[q]).Some? && Shape(c2[q]).Some?
    ensures HasRaggedArray(c1) <==> HasRaggedArray(c2)
  {
    if HasRaggedArray(c1) {
      var key :| key in c1 && key != "k" && Shape(c1[key]).None?;
      assert key in c2 && Shape(c2[key]).None?;
    }
    if HasRaggedArray(c2) {
      var key :| key in c2 && key != "k" && Shape(c2[key]).None?;
      assert key in c1 && Shape(c1[key]).None?;
    }
  }

  /** A ragged list fails the whole resolution, even under a key the
      emulator does not need: the coercion of line 39 covers every key but
      `k`, so an unneeded key does matter when numpy cannot coerce it. */
  lemma RaggedUnneededKeyFails(mg: MGBoost, coordinates: map<string, PyValue>, q: string, items: seq<PyValue>, i: nat, j: nat)
    requires q != "k" && q !in mg.nonlinear.keys
    requires i < |items| && j < |items| && Shape(items[i]) != Shape(items[j])
    ensures GetParameters(mg, coordinates[q := PyList(items)]) == Failure(RaggedArray)
  {
    MixedItemsAreRagged(items, i, j);
    assert q in coordinates[q := PyList(items)];
  }

  /** Two coordinate sets that differ only at a key bound to a non-empty
      value in both agree on whether some array is empty. */
  lemma SameEmptiness(c1: map<string, PyValue>, c2: map<string, PyValue>, q: string)
    requires c1.Keys == c2.Keys
    requires forall key :: key in c1 && key != q ==> c1[key] == c2[key]
    requires q in c1 ==> c1[q] != PyList([]) && c2[q] != PyList([])
    ensures HasEmptyArray(c1) <==> HasEmptyArray(c2)
  {
    if HasEmptyArray(c1) {
      var key :| key in c1 && key != "k" && c1[key] == PyList([]);
      assert key in c2 && c2[key] == PyList([]);
    }
    if HasEmptyArray(c2) {
      var key :| key in c2 && key != "k" && c2[key] == PyList([]);
      assert key in c1 && c1[key] == PyList([]);
    }
  }

  /** Evaluation depends on the keyword arguments only through the
      resolved parameters and the requested wavenumbers. */
  lemma EvaluateSeesOnlyParametersAndK(mg: MGBoost, kw1: map<string, PyValue>, kw2: map<string, PyValue>)
    requires Valid(mg)
    requires GetParameters(mg, kw1) == GetParameters(mg, kw2)
    requires RequestedK(kw1) == RequestedK(kw2)
    ensures EvaluateNonlinear(mg, kw1) == EvaluateNonlinear(mg, kw2)
  {
  }

  /** Two calls that differ only in a keyword that names no parameter
      forward the same dictionary except for its `kwargs` entry. */
  lemma AgreeOutsideKwargs(keywords: map<string, PyValue>, key: string, v: PyValue)
    requires "self" !in keywords && key != "self" && key !in NamedParameters
    ensures var kw1, kw2 := GatherArguments(keywords), GatherArguments(keywords[key := v]);
      kw1.Keys == kw2.Keys && forall p :: p in kw1 && p != "kwargs" ==> kw1[p] == kw2[p]
  {
    var kw1, kw2 := GatherArguments(keywords), GatherArguments(keywords[key := v]);
    forall p | p in kw1 && p != "kwargs"
      ensures kw1[p] == kw2[p]
    {
      assert p in NamedParameters && p != key;
    }
  }

  /** The catch-all reaches the resolver as one entry named `kwargs`, so
      extra keyword arguments are never seen one by one: unless an emulator
      lists `kwargs` itself as a parameter, they cannot change the result. */
  lemma ExtraKeywordsNeverSeen(mg: MGBoost, keywords: map<string, PyValue>, key: string, v: PyValue)
    requires Valid(mg) && "self" !in keywords
    requires key != "self" && key !in NamedParameters
    requires "kwargs" !in mg.nonlinear.keys
    ensures GetNonlinearBoost(mg, keywords[key := v]) == GetNonlinearBoost(mg, keywords)
  {
    var kw1 := GatherArguments(keywords);
    var kw2 := GatherArguments(keywords[key := v]);
    AgreeOutsideKwargs(keywords, key, v);
    ResolverIgnoresUnneededKey(mg, kw1, kw2, "kwargs");
    assert "k" in NamedParameters;
    EvaluateSeesOnlyParametersAndK(mg, kw1, kw2);
  }

  /** A parameter that is not a named argument of `get_nonlinear_boost`
      can never be supplied, and neither can `k`: an emulator that needs
      one always fails. */
  lemma UnnamedParameterNeverSupplied(mg: MGBoost, keywords: map<string, PyValue>, p: string)
    requires Valid(mg) && "self" !in keywords
    requires p in mg.nonlinear.keys
    requires p == "k" || p !in NamedParameters + {"kwargs"}
    ensures GetNonlinearBoost(mg, keywords).Failure?
    ensures var r := GetNonlinearBoost(mg, keywords);
      r.error.MissingParameters? ==> p in r.error.missing
  {
    assert !Supplied(GatherArguments(keywords), p);
  }

  /** Every named argument defaults to `None`, so a call that passes
      nothing reports every parameter the emulator needs as missing (all
      but a parameter named `kwargs`, which the catch-all always fills). */
  lemma DefaultsSupplyNothing(mg: MGBoost)
    requires Valid(mg)
    requires exists p :: p in mg.nonlinear.keys && p != "kwargs"
    ensures GetNonlinearBoost(mg, map[])
      == Failure(MissingParameters(set p | p in mg.nonlinear.keys && p != "kwargs"))
  {
    var kw := GatherArguments(map[]);
    assert forall key :: key in kw && key != "kwargs" ==> kw[key] == PyNone;
    assert !HasRaggedArray(kw);
    assert !HasEmptyArray(kw);
    var missing := set p | p in mg.nonlinear.keys && p != "kwargs";
    var q :| q in mg.nonlinear.keys && q != "kwargs";
    assert q in missing && !Supplied(kw, q);
    assert forall p :: Supplied(kw, p) <==> p == "kwargs";
    assert GetParameters(mg, kw).error.missing == missing;
  }
}
