/**
 The fluctuation query on a small table of two stations, 68 and 81, whose
 totals tie at 5. The scan reports the station whose running total reached
 the common maximum first, which here is 81 (at its second reading), not 68,
 the station that appears first.
 */
module Scenarios {
  import opened WeatherTypes
  import opened FluctuationSpec

  function TieTable(): (t: seq<Reading>)
  {
    [Reading(68, 1.0, 10.0), Reading(81, 1.0, 20.0), Reading(68, 2.0, 12.0),
     Reading(81, 2.0, 25.0), Reading(68, 3.0, 9.0)]
  }

  /** The stations of the first three readings and of the whole table. */
  lemma TieTableIds()
    ensures Ids(TieTable()[..3]) == {68, 81} && Ids(TieTable()) == {68, 81}
  {
    var t := TieTable();
    IdsStep([t[0]], t[1]);
    IdsStep([t[0], t[1]], t[2]);
    IdsStep([t[0], t[1], t[2]], t[3]);
    IdsStep([t[0], t[1], t[2], t[3]], t[4]);
    assert [t[0]] + [t[1]] == [t[0], t[1]];
    assert [t[0], t[1]] + [t[2]] == [t[0], t[1], t[2]] == t[..3];
    assert [t[0], t[1], t[2]] + [t[3]] == [t[0], t[1], t[2], t[3]];
    assert t == [t[0], t[1], t[2], t[3]] + [t[4]];
  }

  /** The temperatures of each station, readings 0 to 2 and 0 to 4. */
  lemma TieTableTemps()
    ensures TempsOf(TieTable()[..3], 68, NoWindow) == [10.0, 12.0]
    ensures TempsOf(TieTable()[..3], 81, NoWindow) == [20.0]
    ensures TempsOf(TieTable()[..4], 81, NoWindow) == [20.0, 25.0]
    ensures TempsOf(TieTable(), 68, NoWindow) == [10.0, 12.0, 9.0]
    ensures TempsOf(TieTable(), 81, NoWindow) == [20.0, 25.0]
  {
    var t := TieTable();
    var p1, p2, p3, p4 := [t[0]], [t[0], t[1]], [t[0], t[1], t[2]], [t[0], t[1], t[2], t[3]];
    assert p1 == [] + [t[0]] && p2 == p1 + [t[1]] && p3 == p2 + [t[2]] && p4 == p3 + [t[3]];
    assert t == p4 + [t[4]] && t[..3] == p3 && t[..4] == p4;
    forall s | s == 68 || s == 81
      ensures TempsOf(p3, s, NoWindow) == if s == 68 then [10.0, 12.0] else [20.0]
      ensures TempsOf(p4, s, NoWindow) == if s == 68 then [10.0, 12.0] else [20.0, 25.0]
      ensures TempsOf(t, s, NoWindow) == if s == 68 then [10.0, 12.0, 9.0] else [20.0, 25.0]
    {
      AcceptedStep([], t[0], s, NoWindow);
      AcceptedStep(p1, t[1], s, NoWindow);
      AcceptedStep(p2, t[2], s, NoWindow);
      AcceptedStep(p3, t[3], s, NoWindow);
      AcceptedStep(p4, t[4], s, NoWindow);
    }
  }

  /** Both stations end at 5: 68 with |12 - 10| + |9 - 12|, 81 with |25 - 20|. */
  lemma TieTableMax()
    ensures Total(TieTable(), 68, NoWindow) == 5.0 && Total(TieTable(), 81, NoWindow) == 5.0
    ensures MaxTotal(TieTable(), NoWindow) == 5.0
  {
    var t := TieTable();
    AcceptedUnwindowed(t, 68);
    AcceptedUnwindowed(t, 81);
    TieTableTemps();
    TieTableIds();
    MaxTotalBounds(t, NoWindow);
    assert Total(t, 68, NoWindow) <= MaxTotal(t, NoWindow);
    var s :| s in Ids(t) && Total(t, s, NoWindow) == MaxTotal(t, NoWindow);
  }

  /** Reading 3 (station 81, temperature 25) lifts 81 to 5 while 68 stands at 2. */
  lemma TieTableReach()
    ensures MaxTotal(TieTable()[..3], NoWindow) == 2.0
    ensures Total(TieTable()[..4], 81, NoWindow) == 5.0
  {
    var t := TieTable();
    var p3, p4 := t[..3], t[..4];
    assert p3 == [t[0], t[1], t[2]] && p4 == p3 + [t[3]];
    AcceptedUnwindowed(p3, 68);
    AcceptedUnwindowed(p3, 81);
    AcceptedUnwindowed(p4, 81);
    TieTableTemps();
    TieTableIds();
    MaxTotalBounds(p3, NoWindow);
    assert Total(p3, 68, NoWindow) <= MaxTotal(p3, NoWindow);
    var s :| s in Ids(p3) && Total(p3, s, NoWindow) == MaxTotal(p3, NoWindow);
  }

  lemma TieGoesToFirstToReach()
    ensures MostFluctuation(TieTable(), NoWindow) == 81
  {
    var t := TieTable();
    TieTableMax();
    TieTableReach();
    MostFluctuationIsFirstToReachMax(t, NoWindow);
    var k :| 0 <= k < |t| && t[k].id == MostFluctuation(t, NoWindow)
             && Total(t[..k + 1], t[k].id, NoWindow) == MaxTotal(t, NoWindow)
             && MaxTotal(t[..k], NoWindow) < MaxTotal(t, NoWindow);
    FirstToReachUnique(t, NoWindow, k, 3);
  }

  /**
   With the window [1.5, 3.5], station 81 still totals |25 - 20| = 5: its
   first reading, dated 1.0, is accepted although it lies outside the window.
   */
  lemma FirstReadingIgnoresWindow()
    ensures Total(TieTable(), 81, Between(1.5, 3.5)) == 5.0
  {
    var t, w := TieTable(), Between(1.5, 3.5);
    var b := [t[2], t[3], t[4]];
    assert t == [t[0]] + [t[1]] + b;
    assert Ids([t[0]]) == {68} by {
      IdsStep([], t[0]);
      assert [] + [t[0]] == [t[0]];
    }
    AcceptedWindowed([t[0]], t[1], b, w);
    assert TempsOf(b, 81, w) == [25.0] by {
      assert [t[2]] == [] + [t[2]] && [t[2], t[3]] == [t[2]] + [t[3]] && b == [t[2], t[3]] + [t[4]];
      AcceptedStep([], t[2], 81, w);
      AcceptedStep([t[2]], t[3], 81, w);
      AcceptedStep([t[2], t[3]], t[4], 81, w);
    }
  }
}
