/** The mirror itself: records updated in place as files are read, written and forgotten. */
module SocialStore {
  import opened SocialKeys
  import opened SocialValues
  import V = StoreValues

  class Store {
    var records: seq<V.Record>

    constructor ()
      ensures records == []
    {
      records := [];
    }

    /** Reconciling the mirror with a file that was read. */
    method SyncFromGame(grid: seq<Social>, now: int) returns (report: V.Report)
      modifies this
      ensures records == V.Sync(old(records), grid, now)
      ensures report == V.SyncReport(old(records), grid, now)
    {
      hide V.Renew, V.Fresh, V.Find, V.SortBySlot, V.Unchanged;
      var known := |records|;
      ghost var was := records;
      report := V.Report([], [], [], []);
      var seen: set<Slot> := {};
      for n := 0 to |grid|
        invariant was == old(records) && known == |was|
        invariant records == V.PutAll(was, V.Synced, grid[..n], now)
        invariant report == V.GridReport(was, grid[..n], now) && report.lost == []
        invariant seen == V.SlotsOf(grid[..n])
      {
        assert grid[..n + 1][..n] == grid[..n];
        SeenStep(grid, n);
        var social := grid[n];
        seen := seen + {social.slot};
        var i := V.Find(records[..known], social.slot);
        if i == known {
          records := records + [V.Fresh(V.Synced, social, now)];
          report := report.(added := report.added + [social.slot]);
        } else {
          if V.Unchanged(records[i], social) {
            report := report.(same := report.same + [social.slot]);
          } else {
            report := report.(changed := report.changed + [social.slot]);
          }
          records := records[i := V.Renew(V.Synced, records[i], social, now)];
        }
      }
      assert grid[..|grid|] == grid;
      var flagged, lost := FlagLost(records, seen, now);
      report := report.(lost := lost);
      records := V.SortBySlot(flagged);
    }

    lemma SeenStep(grid: seq<Social>, n: nat)
      requires n < |grid|
      ensures V.SlotsOf(grid[..n + 1]) == V.SlotsOf(grid[..n]) + {grid[n].slot}
    {
      assert forall s :: s in grid[..n + 1] <==> s in grid[..n] || s == grid[n];
    }

    /** Flagging the records whose slot was not seen. */
    static method FlagLost(records: seq<V.Record>, seen: set<Slot>, now: int)
      returns (flagged: seq<V.Record>, lost: seq<Slot>)
      ensures flagged == V.FlagLost(records, seen, now) && lost == V.LostSlots(records, seen)
    {
      hide V.Gone;
      flagged, lost := [], [];
      for n := 0 to |records|
        invariant flagged == V.FlagLost(records[..n], seen, now) && lost == V.LostSlots(records[..n], seen)
      {
        assert records[..n + 1][..n] == records[..n];
        if records[n].Place() in seen {
          flagged := flagged + [records[n]];
        } else {
          flagged := flagged + [V.Gone(records[n], now)];
          lost := lost + [records[n].Place()];
        }
      }
      assert records[..|records|] == records;
    }

    /** Recording that we wrote these socials to the file. */
    method MarkWritten(socials: seq<Social>, mark: V.Mark, now: int)
      modifies this
      ensures records == V.MarkWritten(old(records), socials, mark, now)
    {
      hide V.Renew, V.Fresh, V.Find, V.SortBySlot, BySlot, InOrder;
      var known := |records|;
      ghost var was := records;
      var cleaned := NormalizeSocials(socials, MAX_LINES);
      for n := 0 to |cleaned|
        invariant was == old(records) && known == |was|
        invariant records == V.PutAll(was, V.Written(mark), cleaned[..n], now)
      {
        assert cleaned[..n + 1][..n] == cleaned[..n];
        var social := cleaned[n];
        var i := V.Find(records[..known], social.slot);
        if i == known {
          records := records + [V.Fresh(V.Written(mark), social, now)];
        } else {
          records := records[i := V.Renew(V.Written(mark), records[i], social, now)];
        }
      }
      assert cleaned[..|cleaned|] == cleaned;
      records := V.SortBySlot(records);
    }

    /** Dropping the records of slots the user cleared. */
    method ForgetSlots(slots: set<Slot>)
      modifies this
      ensures records == V.Forget(old(records), slots)
    {
      var kept: seq<V.Record> := [];
      for n := 0 to |records|
        invariant records == old(records) && kept == V.Forget(records[..n], slots)
      {
        assert records[..n + 1][..n] == records[..n];
        if records[n].Place() !in slots { kept := kept + [records[n]]; }
      }
      assert records[..|records|] == records;
      records := kept;
    }
  }
}
