/**
 * The ordering of the departures table in `updateDepartureDisplay`: the
 * station's vehicles are copied, then either sorted by line and time or
 * reversed, depending on the "sort lines" checkbox.
 */
module Departures {
  import opened Wrappers
  import opened Lists
  import opened StableSort

  /** A vehicle on its way to the station, as the departures response lists it. */
  datatype Vehicle = Vehicle(
    lineNumber: int,
    secondsLeft: nat,
    stationsBetween: nat,
    stationName: Option<string>,
    garageNo: string)

  /** The comparator: by line number, then by seconds left. */
  function CompareVehicles(a: Vehicle, b: Vehicle): (c: int)
    ensures c < 0 <==> a.lineNumber < b.lineNumber || (a.lineNumber == b.lineNumber && a.secondsLeft < b.secondsLeft)
    ensures c == 0 <==> a.lineNumber == b.lineNumber && a.secondsLeft == b.secondsLeft
  {
    if a.lineNumber != b.lineNumber then a.lineNumber - b.lineNumber
    else a.secondsLeft - b.secondsLeft
  }

  /** The key the comparator orders by. */
  function VehicleKey(v: Vehicle): Key
  {
    Key(v.lineNumber, v.secondsLeft)
  }

  /**
   * The comparator and the key agree: the comparator is positive exactly when
   * the key puts `a` after `b`, and zero exactly when the keys tie.
   */
  lemma CompareVehiclesIsKeyOrder(a: Vehicle, b: Vehicle)
    ensures CompareVehicles(a, b) > 0 <==> !NotAfter(VehicleKey(a), VehicleKey(b))
    ensures CompareVehicles(a, b) == 0 <==> VehicleKey(a) == VehicleKey(b)
  {
  }

  /** The table's rows in display order: every vehicle of the response, each exactly once. */
  function DisplayOrder(vehicles: seq<Vehicle>, sortLines: bool): (r: seq<Vehicle>)
    ensures |r| == |vehicles|
    ensures multiset(r) == multiset(vehicles)
  {
    if sortLines && |vehicles| > 0 then
      SortPermutes(vehicles, VehicleKey);
      Sort(vehicles, VehicleKey)
    else
      ReversedPermutes(vehicles);
      Reversed(vehicles)
  }

  /**
   * With "sort lines" checked, rows go by line number, then by seconds left,
   * and vehicles that tie on both keep the order of the response.
   */
  lemma DisplayOrderSorted(vehicles: seq<Vehicle>, line: int, seconds: nat)
    requires |vehicles| > 0
    ensures var r := DisplayOrder(vehicles, true);
            forall i, j :: 0 <= i < j < |r| ==>
              r[i].lineNumber < r[j].lineNumber ||
              (r[i].lineNumber == r[j].lineNumber && r[i].secondsLeft <= r[j].secondsLeft)
    ensures Class(DisplayOrder(vehicles, true), Key(line, seconds), VehicleKey) == Class(vehicles, Key(line, seconds), VehicleKey)
  {
    SortSorted(vehicles, VehicleKey);
    SortStable(vehicles, Key(line, seconds), VehicleKey);
  }

  /** Otherwise, or for an empty list, the rows are the response backwards. */
  lemma DisplayOrderReversed(vehicles: seq<Vehicle>, sortLines: bool)
    requires !sortLines || vehicles == []
    ensures var r := DisplayOrder(vehicles, sortLines);
            forall i :: 0 <= i < |r| ==> r[i] == vehicles[|vehicles| - 1 - i]
  {
  }

  /**
   * The copy-then-reorder of `updateDepartureDisplay`: `[...vehicles]`, then
   * `sort` or `reverse` on the copy. The response's own array is not touched.
   */
  method OrderForDisplay(vehicles: array<Vehicle>, sortLines: bool) returns (shown: array<Vehicle>)
    ensures fresh(shown)
    ensures shown[..] == DisplayOrder(vehicles[..], sortLines)
  {
    shown := new Vehicle[vehicles.Length](i requires 0 <= i < vehicles.Length reads vehicles => vehicles[i]);
    assert shown[..] == vehicles[..];
    if sortLines && shown.Length > 0 {
      SortInPlace(shown, VehicleKey);
    } else {
      Reverse(shown);
    }
  }
}
