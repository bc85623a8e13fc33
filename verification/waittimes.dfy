/** `getCurrentWaitTimes`: attraction name -> posted wait, for the entries of
    the wait-times response that carry a posted wait. */
module WaitTimes {
  import opened Wrappers

  /** One element of the response's `entries` array: its `name` and, when the
      `waitTime` object has one, its `postedWaitMinutes`. */
  datatype WaitEntry = WaitEntry(name: string, postedWaitMinutes: Option<int>)

  /** An entry the loop writes for `name`. */
  predicate PostsFor(e: WaitEntry, name: string) {
    e.name == name && e.postedWaitMinutes.Some?
  }

  /** The dictionary the loop leaves after the given entries, one entry at a
      time: a posted wait is written under the entry's name, replacing any
      earlier one; an entry without a posted wait is skipped. */
  function CurrentWaitTimes(entries: seq<WaitEntry>): (times: map<string, int>)
    ensures forall name :: name in times <==> exists i :: 0 <= i < |entries| && PostsFor(entries[i], name)
    ensures forall name :: name in times ==>
      exists i :: && 0 <= i < |entries| && entries[i] == WaitEntry(name, Some(times[name]))
                  && forall j :: i < j < |entries| ==> !PostsFor(entries[j], name)
    decreases |entries|
  {
    if |entries| == 0 then map[]
    else
      var times := CurrentWaitTimes(entries[..|entries| - 1]);
      WriteLast(entries, times);
      var last := entries[|entries| - 1];
      if last.postedWaitMinutes.Some? then times[last.name := last.postedWaitMinutes.value] else times
  }

  /** One more loop step keeps `CurrentWaitTimes`'s promise. */
  lemma {:induction false} WriteLast(entries: seq<WaitEntry>, times: map<string, int>)
    requires |entries| > 0
    requires var prefix := entries[..|entries| - 1];
      && (forall name :: name in times <==> exists i :: 0 <= i < |prefix| && PostsFor(prefix[i], name))
      && forall name :: name in times ==>
           exists i :: && 0 <= i < |prefix| && prefix[i] == WaitEntry(name, Some(times[name]))
                       && forall j :: i < j < |prefix| ==> !PostsFor(prefix[j], name)
    ensures var last := entries[|entries| - 1];
      var times' := if last.postedWaitMinutes.Some? then times[last.name := last.postedWaitMinutes.value] else times;
      && (forall name :: name in times' <==> exists i :: 0 <= i < |entries| && PostsFor(entries[i], name))
      && forall name :: name in times' ==>
           exists i :: && 0 <= i < |entries| && entries[i] == WaitEntry(name, Some(times'[name]))
                       && forall j :: i < j < |entries| ==> !PostsFor(entries[j], name)
  {
    var n := |entries| - 1;
    var prefix := entries[..n];
    var last := entries[n];
    var times' := if last.postedWaitMinutes.Some? then times[last.name := last.postedWaitMinutes.value] else times;
    assert forall i :: 0 <= i < n ==> prefix[i] == entries[i];
    forall name | exists i :: 0 <= i < |entries| && PostsFor(entries[i], name)
      ensures name in times'
    {
      var i :| 0 <= i < |entries| && PostsFor(entries[i], name);
      if i < n {
        assert PostsFor(prefix[i], name);
      }
    }
    forall name | name in times'
      ensures exists i :: && 0 <= i < |entries| && entries[i] == WaitEntry(name, Some(times'[name]))
                          && forall j :: i < j < |entries| ==> !PostsFor(entries[j], name)
    {
      if PostsFor(last, name) {
        assert entries[n] == WaitEntry(name, Some(times'[name]));
      } else {
        var i :| && 0 <= i < |prefix| && prefix[i] == WaitEntry(name, Some(times[name]))
                 && forall j :: i < j < |prefix| ==> !PostsFor(prefix[j], name);
        assert entries[i] == WaitEntry(name, Some(times'[name]));
      }
    }
  }

  /** Two entries, the second without a posted wait: only the first appears. */
  lemma EntryWithoutPostedWaitOmitted(a: string, b: string, minutes: int)
    ensures CurrentWaitTimes([WaitEntry(a, Some(minutes)), WaitEntry(b, None)]) == map[a := minutes]
  {
    var es := [WaitEntry(a, Some(minutes)), WaitEntry(b, None)];
    assert es[..1] == [WaitEntry(a, Some(minutes))];
    assert es[..1][..0] == [];
  }

  /** Of two posted waits for the same attraction, the later one is kept. */
  lemma LaterPostedWaitWins(entries: seq<WaitEntry>, name: string, minutes: int)
    ensures var times := CurrentWaitTimes(entries + [WaitEntry(name, Some(minutes))]);
      name in times && times[name] == minutes
  {
    var es := entries + [WaitEntry(name, Some(minutes))];
    assert es[..|entries|] == entries;
  }

  /** An entry without a posted wait changes nothing. */
  lemma UnpostedEntryIgnored(entries: seq<WaitEntry>, name: string)
    ensures CurrentWaitTimes(entries + [WaitEntry(name, None)]) == CurrentWaitTimes(entries)
  {
    var es := entries + [WaitEntry(name, None)];
    assert es[..|entries|] == entries;
  }
}
