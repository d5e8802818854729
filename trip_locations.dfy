/**
 * The trip planner's location slots: the `fromLocation`, `toLocation` and
 * `viaLocation` globals and the text of the three inputs they come from.
 */
module TripLocations {
  import opened Wrappers
  import opened Stations

  /** The planner's origin, destination and optional stop. */
  class Slots {
    var from: Option<Station>
    var to: Option<Station>
    var via: Option<Station>
    /** What the "from", "to" and "via" inputs show. */
    var fromText: string
    var toText: string
    var viaText: string

    constructor()
      ensures from == None && to == None && via == None
      ensures fromText == [] && toText == [] && viaText == []
    {
      from, to, via := None, None, None;
      fromText, toText, viaText := [], [], [];
    }

    /**
     * `setLocationForInput`: the input's id picks the slot; any other id
     * changes nothing.
     */
    method SetLocationForInput(inputId: string, station: Station)
      modifies this`from, this`to, this`via
      ensures from == (if inputId == "from-input" then Some(station) else old(from))
      ensures to == (if inputId == "to-input" then Some(station) else old(to))
      ensures via == (if inputId == "via-input" then Some(station) else old(via))
    {
      if inputId == "from-input" {
        from := Some(station);
      } else if inputId == "to-input" {
        to := Some(station);
      } else if inputId == "via-input" {
        via := Some(station);
      }
    }

    /**
     * A click on a suggestion of one of the three inputs: the input shows the
     * station's name and its slot holds the station.
     */
    method PickSuggestion(inputId: string, station: Station)
      requires inputId in {"from-input", "to-input", "via-input"}
      modifies this
      ensures inputId == "from-input" ==> from == Some(station) && fromText == station.name
      ensures inputId == "to-input" ==> to == Some(station) && toText == station.name
      ensures inputId == "via-input" ==> via == Some(station) && viaText == station.name
      ensures inputId != "from-input" ==> from == old(from) && fromText == old(fromText)
      ensures inputId != "to-input" ==> to == old(to) && toText == old(toText)
      ensures inputId != "via-input" ==> via == old(via) && viaText == old(viaText)
    {
      if inputId == "from-input" {
        fromText := station.name;
      } else if inputId == "to-input" {
        toText := station.name;
      } else {
        viaText := station.name;
      }
      SetLocationForInput(inputId, station);
    }

    /** `swapLocations`: exchanges origin and destination, both the text and the slot. */
    method SwapLocations()
      modifies this`from, this`to, this`fromText, this`toText
      ensures from == old(to) && to == old(from)
      ensures fromText == old(toText) && toText == old(fromText)
    {
      fromText, toText := toText, fromText;
      from, to := to, from;
    }

    /** `hideViaInput`: empties the via input and its slot. */
    method HideViaInput()
      modifies this`via, this`viaText
      ensures via == None && viaText == []
    {
      viaText := [];
      via := None;
    }
  }

  /** Swapping twice restores both slots and both inputs. */
  method SwapTwice(s: Slots)
    modifies s
    ensures s.from == old(s.from) && s.to == old(s.to)
    ensures s.fromText == old(s.fromText) && s.toText == old(s.toText)
    ensures s.via == old(s.via) && s.viaText == old(s.viaText)
  {
    s.SwapLocations();
    s.SwapLocations();
  }
}
