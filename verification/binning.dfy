/**
  `Binning` of binning.py: an ordered list of bins on one phase space, and the
  lookup of the bin an event falls into.
 */
module Binnings {
  import opened Wrappers
  import opened PhaseSpaces
  import opened Bins
  import opened XReals

  datatype Binning = Binning(phasespace: PhaseSpace, bins: seq<RectangularBin>)

  /** Every bin lives on the binning's phase space. */
  predicate SamePhaseSpace(ps: PhaseSpace, bins: seq<RectangularBin>) {
    forall i :: 0 <= i < |bins| ==> !Ne(bins[i].bin.phasespace, ps)
  }

  /**
    `Binning(phasespace=..., bins=...)`; `unknown` holds the names of any other
    keyword arguments. The checks run in the order of the constructor.
   */
  function NewBinning(phasespace: Option<PhaseSpace>, bins: Option<seq<RectangularBin>>, unknown: set<string>): (r: Result<Binning>)
    ensures phasespace.None? ==> r == Failure(ValueError(UndefinedPhaseSpace))
    ensures phasespace.Some? && bins.None? ==> r == Failure(ValueError(UndefinedBins))
    ensures phasespace.Some? && bins.Some? && !SamePhaseSpace(phasespace.value, bins.value) ==>
      r == Failure(ValueError(PhaseSpaceMismatch))
    ensures r.Success? <==>
      phasespace.Some? && bins.Some? && SamePhaseSpace(phasespace.value, bins.value) && unknown == {}
    ensures r.Success? ==> r.value == Binning(phasespace.value, bins.value)
    ensures r.Success? ==> forall i :: 0 <= i < |r.value.bins| ==> r.value.bins[i].bin.phasespace == r.value.phasespace
  {
    if phasespace.None? then Failure(ValueError(UndefinedPhaseSpace))
    else if bins.None? then Failure(ValueError(UndefinedBins))
    else if !SamePhaseSpace(phasespace.value, bins.value) then Failure(ValueError(PhaseSpaceMismatch))
    else if unknown != {} then Failure(ValueError(UnknownKwargs))
    else Success(Binning(phasespace.value, bins.value))
  }

  /** The event names a value for every edge variable of every bin. */
  predicate Covers(binning: Binning, event: map<string, XReal>) {
    forall i :: 0 <= i < |binning.bins| ==> binning.bins[i].edges.Keys <= event.Keys
  }

  /** Bin `i` contains the event and no earlier bin does. */
  ghost predicate FirstContaining(binning: Binning, event: map<string, XReal>, i: nat) {
    i < |binning.bins| && Inside(binning.bins[i], event)
    && forall j :: 0 <= j < i ==> !Inside(binning.bins[j], event)
  }

  /** Bin `j` lacks a variable of the event and no earlier bin contains the event. */
  ghost predicate FirstMissing(binning: Binning, event: map<string, XReal>, j: nat) {
    j < |binning.bins| && !(binning.bins[j].edges.Keys <= event.Keys)
    && forall k :: 0 <= k < j ==> !Inside(binning.bins[k], event)
  }

  /**
    `get_event_bin_number(event)`: the index of the first bin containing the
    event, or None when no bin does. The bins are asked in order, so a KeyError
    raised by a bin that the event does not name all variables of ends the
    search, unless an earlier bin already contains the event.
   */
  method GetEventBinNumber(binning: Binning, event: map<string, XReal>) returns (r: Result<Option<nat>>)
    ensures r.Success? && r.value.Some? ==> FirstContaining(binning, event, r.value.value)
    ensures r == Success(None) ==> forall j :: 0 <= j < |binning.bins| ==> !Inside(binning.bins[j], event)
    ensures r.Failure? ==> r.error == KeyError && exists j :: FirstMissing(binning, event, j)
    ensures Covers(binning, event) ==> r.Success?
    ensures Covers(binning, event) ==>
      (r == Success(None) <==> forall j :: 0 <= j < |binning.bins| ==> !Inside(binning.bins[j], event))
  {
    var i := 0;
    while i < |binning.bins|
      invariant 0 <= i <= |binning.bins|
      invariant forall j :: 0 <= j < i ==> !Inside(binning.bins[j], event)
    {
      var hit := EventInBin(binning.bins[i], event);
      if hit.Failure? {
        assert FirstMissing(binning, event, i);
        return Failure(hit.error);
      }
      if hit.value {
        return Success(Some(i));
      }
      i := i + 1;
    }
    return Success(None);
  }

  /** `get_event_bin(event)`: the first bin containing the event, or None. */
  method GetEventBin(binning: Binning, event: map<string, XReal>) returns (r: Result<Option<RectangularBin>>)
    ensures r.Success? && r.value.Some? ==>
      exists i :: 0 <= i < |binning.bins| && FirstContaining(binning, event, i) && r.value.value == binning.bins[i]
    ensures r == Success(None) ==> forall j :: 0 <= j < |binning.bins| ==> !Inside(binning.bins[j], event)
    ensures r.Failure? ==> r.error == KeyError && exists j :: FirstMissing(binning, event, j)
    ensures Covers(binning, event) ==> r.Success?
    ensures Covers(binning, event) ==>
      (r == Success(None) <==> forall j :: 0 <= j < |binning.bins| ==> !Inside(binning.bins[j], event))
  {
    var nr := GetEventBinNumber(binning, event);
    if nr.Failure? {
      return Failure(nr.error);
    }
    if nr.value.Some? {
      r := Success(Some(binning.bins[nr.value.value]));
    } else {
      r := Success(None);
    }
  }
}
