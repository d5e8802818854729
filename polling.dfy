/**
 * The departures polling session: the module-level `currQuery` and
 * `currInterval` of the client, the handlers that change them, and the
 * browser's interval timers they arm and cancel.
 */
module Polling {
  import opened Wrappers
  import opened Text

  /** `CONFIG.REFRESH_INTERVAL`, in milliseconds. */
  const RefreshInterval: nat := 10000

  /** `currQuery`: a station chosen by its id, or by its uid. */
  datatype Query = ById(id: string) | ByUid(uid: string)

  /** One call of `fetchStationDepartures`, with the `recenter` flag the display receives. */
  datatype Fetch = Fetch(query: Query, recenter: bool)

  /**
   * The browser's `setInterval`/`clearInterval`: the live intervals by handle,
   * each with its period. Handles are positive and never reused.
   */
  class Timers {
    var live: map<nat, nat>
    var next: nat

    ghost predicate Valid()
      reads this
    {
      next >= 1 && forall h :: h in live ==> 1 <= h < next
    }

    constructor()
      ensures Valid() && live == map[]
    {
      live := map[];
      next := 1;
    }

    /** Arms an interval and returns its handle, distinct from every live one. */
    method SetInterval(period: nat) returns (h: nat)
      requires Valid()
      modifies this
      ensures Valid()
      ensures h == old(next) && next > h && h !in old(live) && live == old(live)[h := period]
    {
      h := next;
      live := live[h := period];
      next := next + 1;
    }

    /** Cancels the interval with handle `h`; cancelling one that is not live does nothing. */
    method ClearInterval(h: nat)
      requires Valid()
      modifies this`live
      ensures Valid()
      ensures live == old(live) - {h}
    {
      live := live - {h};
    }
  }

  /** The departures session of the page. */
  class Session {
    /** `currQuery`. */
    var query: Option<Query>
    /** `currInterval`: the last handle stored, which may already be cancelled. */
    var interval: Option<nat>
    /** The "auto-refresh" checkbox. */
    var autoRefresh: bool
    /** The "sort lines" checkbox. */
    var sortLines: bool
    /** `document.hidden`. */
    var hidden: bool
    const timers: Timers
    /** Every departures fetch issued so far, in order. */
    ghost var fetches: seq<Fetch>

    /**
     * Every live interval is the one stored in `interval` and refreshes every
     * `RefreshInterval` milliseconds. The stored handle itself need not be
     * live, but it was handed out by the timers.
     */
    ghost predicate Valid()
      reads this, timers
    {
      timers.Valid() &&
      (interval.Some? ==> 1 <= interval.value < timers.next) &&
      forall h :: h in timers.live ==> interval == Some(h) && timers.live[h] == RefreshInterval
    }

    /** The fetch `updateDepartures(recenter)` issues now: one for the current query, if any. */
    ghost function Pending(recenter: bool): seq<Fetch>
      reads this
    {
      if query.Some? then [Fetch(query.value, recenter)] else []
    }

    /**
     * What `startDepartureUpdates` leaves behind: one immediate fetch with
     * `recenter` set; then, with auto-refresh checked, exactly one live
     * interval, under a new handle that is stored, else no live interval and
     * the stored handle untouched. The new handle was never given out before,
     * and handles already given out stay given out.
     */
    twostate predicate Restarted()
      reads this, timers
    {
      fetches == old(fetches) + Pending(true) && old(timers.next) <= timers.next &&
      if autoRefresh then
        interval.Some? && interval != old(interval) && interval.value !in old(timers.live) &&
        old(timers.next) <= interval.value &&
        timers.live == map[interval.value := RefreshInterval]
      else
        timers.live == map[] && interval == old(interval)
    }

    /** A refused search: the query, the stored handle, the timers and the log are as they were. */
    twostate predicate Untouched()
      reads this, timers
    {
      query == old(query) && interval == old(interval) &&
      timers.live == old(timers.live) && timers.next == old(timers.next) && fetches == old(fetches)
    }

    constructor(autoRefresh: bool, sortLines: bool, hidden: bool)
      ensures Valid()
      ensures query == None && interval == None && fetches == []
      ensures this.autoRefresh == autoRefresh && this.sortLines == sortLines && this.hidden == hidden
      ensures fresh(timers) && timers.live == map[]
    {
      query := None;
      interval := None;
      this.autoRefresh := autoRefresh;
      this.sortLines := sortLines;
      this.hidden := hidden;
      timers := new Timers();
      fetches := [];
    }

    /** `updateDepartures(recenter)`: fetches for the current query; without one, does nothing. */
    method UpdateDepartures(recenter: bool)
      modifies this`fetches
      ensures fetches == old(fetches) + Pending(recenter)
    {
      if query.Some? {
        fetches := fetches + [Fetch(query.value, recenter)];
      }
    }

    /** The interval with handle `h` fires: a live one calls `updateDepartures(false)`. */
    method Tick(h: nat)
      modifies this`fetches
      ensures fetches == old(fetches) + (if h in timers.live then Pending(false) else [])
    {
      if h in timers.live {
        UpdateDepartures(false);
      }
    }

    /** `startDepartureUpdates`. */
    method Start()
      requires Valid()
      modifies this`interval, this`fetches, timers
      ensures Valid() && Restarted()
    {
      if interval.Some? {
        timers.ClearInterval(interval.value);
      }
      UpdateDepartures(true);
      if autoRefresh {
        var h := timers.SetInterval(RefreshInterval);
        interval := Some(h);
      }
    }

    /** `stopDepartureUpdates`: no interval stays live and the query is dropped. */
    method Stop()
      requires Valid()
      modifies this`interval, this`query, timers`live
      ensures Valid()
      ensures query == None && interval == None && timers.live == map[]
    {
      if interval.Some? {
        timers.ClearInterval(interval.value);
        interval := None;
      }
      query := None;
    }

    /** Sets the query and restarts, the common tail of the search handlers. */
    method Search(q: Query)
      requires Valid()
      modifies this`query, this`interval, this`fetches, timers
      ensures Valid() && query == Some(q) && Restarted()
    {
      query := Some(q);
      Start();
    }

    /**
     * `searchById`: trims the id input; a blank id is refused with a message
     * and changes nothing.
     */
    method SearchById(input: string) returns (error: Option<string>)
      requires Valid()
      modifies this`query, this`interval, this`fetches, timers
      ensures Valid()
      ensures error.Some? <==> AllWhitespace(input)
      ensures error.Some? ==> error.value == "Please enter a station ID" && Untouched()
      ensures error.None? ==> query == Some(ById(Trim(input))) && Restarted()
    {
      var id := Trim(input);
      if id == [] {
        return Some("Please enter a station ID");
      }
      Search(ById(id));
      return None;
    }

    /** `searchByName`: the selected uid, untrimmed; none selected is refused. */
    method SearchByName(uid: string) returns (error: Option<string>)
      requires Valid()
      modifies this`query, this`interval, this`fetches, timers
      ensures Valid()
      ensures error.Some? <==> uid == []
      ensures error.Some? ==> error.value == "Please select a station" && Untouched()
      ensures error.None? ==> query == Some(ByUid(uid)) && Restarted()
    {
      if uid == [] {
        return Some("Please select a station");
      }
      Search(ByUid(uid));
      return None;
    }

    /** `searchByCoords`: the nearby station selected, untrimmed; none selected is refused. */
    method SearchByCoords(uid: string) returns (error: Option<string>)
      requires Valid()
      modifies this`query, this`interval, this`fetches, timers
      ensures Valid()
      ensures error.Some? <==> uid == []
      ensures error.Some? ==> error.value == "Please select a nearby station" && Untouched()
      ensures error.None? ==> query == Some(ByUid(uid)) && Restarted()
    {
      if uid == [] {
        return Some("Please select a nearby station");
      }
      Search(ByUid(uid));
      return None;
    }

    /**
     * The search form's submit: runs the handler of the selected mode, and
     * nothing for a mode without one.
     */
    method Submit(mode: string, idInput: string, nameInput: string, coordsInput: string)
      returns (error: Option<string>)
      requires Valid()
      modifies this`query, this`interval, this`fetches, timers
      ensures Valid()
      ensures mode == "id" ==>
              && (error.Some? <==> AllWhitespace(idInput))
              && (error.Some? ==> error.value == "Please enter a station ID" && Untouched())
              && (error.None? ==> query == Some(ById(Trim(idInput))) && Restarted())
    ensures mode == "name" ==>
              && (error.Some? <==> nameInput == [])
              && (error.Some? ==> error.value == "Please select a station" && Untouched())
              && (error.None? ==> query == Some(ByUid(nameInput)) && Restarted())
    ensures mode == "coords" ==>
              && (error.Some? <==> coordsInput == [])
              && (error.Some? ==> error.value == "Please select a nearby station" && Untouched())
              && (error.None? ==> query == Some(ByUid(coordsInput)) && Restarted())
    ensures mode !in {"id", "name", "coords"} ==> error == None && Untouched()
    {
      if mode == "id" {
        error := SearchById(idInput);
      } else if mode == "name" {
        error := SearchByName(nameInput);
      } else if mode == "coords" {
        error := SearchByCoords(coordsInput);
      } else {
        error := None;
      }
    }

    /** Cancels the stored interval, if any, and forgets its handle. */
    method Cancel()
      requires Valid()
      modifies this`interval, timers`live
      ensures Valid() && interval == None && timers.live == map[]
    {
      if interval.Some? {
        timers.ClearInterval(interval.value);
        interval := None;
      }
    }

    /**
     * The "auto-refresh" checkbox changes to `checked`. Without a query
     * nothing else changes; with one, checking restarts and unchecking
     * cancels the interval and keeps the query.
     */
    method AutoRefreshChanged(checked: bool)
      requires Valid()
      modifies this`autoRefresh, this`interval, this`fetches, timers
      ensures Valid() && autoRefresh == checked && old(timers.next) <= timers.next
      ensures old(query).None? ==>
                interval == old(interval) && timers.live == old(timers.live) && fetches == old(fetches)
      ensures old(query).Some? && checked ==> Restarted()
      ensures old(query).Some? && !checked ==>
                interval == None && timers.live == map[] && fetches == old(fetches)
    {
      autoRefresh := checked;
      if query.Some? {
        if checked {
          Start();
        } else {
          Cancel();
        }
      }
    }

    /** The "sort lines" checkbox changes: with a query, the table is fetched again without recentring. */
    method SortLinesChanged(checked: bool)
      modifies this`sortLines, this`fetches
      ensures sortLines == checked
      ensures fetches == old(fetches) + Pending(false)
    {
      sortLines := checked;
      if query.Some? {
        UpdateDepartures(false);
      }
    }

    /**
     * `visibilitychange`. With auto-refresh unchecked nothing else changes;
     * with it checked, hiding the page cancels the interval and keeps the
     * query, and showing it again with a query restarts.
     */
    method VisibilityChanged(nowHidden: bool)
      requires Valid()
      modifies this`hidden, this`interval, this`fetches, timers
      ensures Valid() && hidden == nowHidden && old(timers.next) <= timers.next
      ensures !autoRefresh || (!nowHidden && query.None?) ==>
                interval == old(interval) && timers.live == old(timers.live) && fetches == old(fetches)
      ensures autoRefresh && nowHidden ==>
                interval == None && timers.live == map[] && fetches == old(fetches)
      ensures autoRefresh && !nowHidden && query.Some? ==> Restarted()
    {
      hidden := nowHidden;
      if autoRefresh {
        if hidden {
          Cancel();
        } else if query.Some? {
          Start();
        }
      }
    }
  }

  /** At most one interval is ever live, and it is the stored one. */
  lemma AtMostOneLive(s: Session)
    requires s.Valid()
    ensures |s.timers.live.Keys| <= 1
    ensures s.timers.live != map[] ==> s.interval.Some? && s.interval.value in s.timers.live
  {
    if s.timers.live != map[] {
      var h :| h in s.timers.live;
      assert s.timers.live.Keys == {h};
    }
  }

  /**
   * After `stop`, nothing fetches: not a direct update, not an interval
   * firing, not the page becoming visible again.
   */
  method StopSilences(s: Session, h: nat, recenter: bool)
    requires s.Valid()
    modifies s`interval, s`query, s`fetches, s`hidden, s.timers
    ensures s.fetches == old(s.fetches) && s.query == None && s.timers.live == map[]
  {
    s.Stop();
    s.Tick(h);
    s.UpdateDepartures(recenter);
    s.VisibilityChanged(false);
  }

  /**
   * With auto-refresh on, hiding the page suspends polling and keeps the
   * query; showing it again fetches once and re-arms exactly one interval.
   */
  method HideThenShow(s: Session)
    requires s.Valid() && s.autoRefresh && s.query.Some?
    modifies s`hidden, s`interval, s`fetches, s.timers
    ensures s.Valid() && s.query == old(s.query)
    ensures s.fetches == old(s.fetches) + [Fetch(s.query.value, true)]
    ensures s.interval.Some? && s.timers.live == map[s.interval.value := RefreshInterval]
  {
    s.VisibilityChanged(true);
    assert s.timers.live == map[] && s.query == old(s.query);
    s.VisibilityChanged(false);
  }

  /**
   * Two searches in a row leave at most one live interval, polling the second
   * query. The first search's handle, returned as `first`, is cancelled and
   * below the next handle the timers give out, so it never fires again.
   */
  method SearchTwice(s: Session, q1: Query, q2: Query) returns (first: Option<nat>)
    requires s.Valid()
    modifies s`query, s`interval, s`fetches, s.timers
    ensures s.Valid() && s.query == Some(q2)
    ensures s.fetches == old(s.fetches) + [Fetch(q1, true), Fetch(q2, true)]
    ensures s.autoRefresh ==> s.interval.Some? && s.timers.live == map[s.interval.value := RefreshInterval]
    ensures s.autoRefresh ==> first.Some? && first != s.interval
    ensures first.Some? ==> first.value !in s.timers.live && first.value < s.timers.next
  {
    s.Search(q1);
    first := s.interval;
    s.Search(q2);
    if first.Some? {
      ghost var before := s.fetches;
      s.Tick(first.value);
      assert s.fetches == before;
    }
  }

  /**
   * A superseded interval stays cancelled for good: after two searches, the
   * first one's handle is still dead once the page is hidden and shown,
   * auto-refresh is turned off and on, and a third search runs.
   */
  method SupersededNeverFires(s: Session, q1: Query, q2: Query, q3: Query) returns (first: Option<nat>)
    requires s.Valid()
    modifies s`query, s`interval, s`fetches, s`hidden, s`autoRefresh, s.timers
    ensures s.Valid() && s.query == Some(q3) && s.autoRefresh
    ensures first.Some? ==> first.value !in s.timers.live && first.value < s.timers.next
    ensures first.Some? && s.interval.Some? ==> first != s.interval
  {
    first := SearchTwice(s, q1, q2);
    s.VisibilityChanged(true);
    s.VisibilityChanged(false);
    s.AutoRefreshChanged(false);
    s.AutoRefreshChanged(true);
    s.Search(q3);
  }
}
