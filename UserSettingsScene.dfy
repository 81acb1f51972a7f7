/** The rules of the settings screen in src/menus/UserSettingsScene.ts: what clicking an
    attire item does to the worn attire (one base, at most three clothes), the style
    counter, and the statistics panel (play time broken into days, hours, minutes and
    seconds, and the rows shown). */
module UserSettingsScene {
  import opened Wrappers
  import opened Strings
  import opened Attires
  import opened UserManager

  // ---------------------------------------------------------------------------
  // The attire click rule

  /** `attire.find(a => a.id === id)` is truthy. */
  predicate IsWearing(attire: seq<Attire>, id: string)
  {
    exists a :: a in attire && a.id == id
  }

  /** `attire.filter(a => a.id !== id)`. */
  function WithoutId(attire: seq<Attire>, id: string): (r: seq<Attire>)
    ensures forall a :: a in r <==> a in attire && a.id != id
    ensures |r| <= |attire|
  {
    if attire == [] then []
    else if attire[0].id != id then [attire[0]] + WithoutId(attire[1..], id)
    else WithoutId(attire[1..], id)
  }

  /** `filter` distributes over concatenation, so the kept items stay in their order
      and keep their multiplicity. */
  lemma {:induction false} WithoutIdAppend(a: seq<Attire>, b: seq<Attire>, id: string)
    ensures WithoutId(a + b, id) == WithoutId(a, id) + WithoutId(b, id)
  {
    if a == [] {
      assert a + b == b;
    } else {
      assert (a + b)[0] == a[0] && (a + b)[1..] == a[1..] + b;
      WithoutIdAppend(a[1..], b, id);
    }
  }

  /** Items with other ids are all kept, in their order. */
  lemma {:induction false} WithoutIdKeepsOthers(attire: seq<Attire>, id: string)
    requires forall i :: 0 <= i < |attire| ==> attire[i].id != id
    ensures WithoutId(attire, id) == attire
  {
    if attire != [] {
      WithoutIdKeepsOthers(attire[1..], id);
    }
  }

  /** The attire a click on `clicked` saves through `changeSettings`, or None when the
      click changes nothing (an unworn item while three clothes are worn). */
  function ClickAttire(current: seq<Attire>, clicked: Attire): (r: Option<seq<Attire>>)
    ensures r.None? <==> !clicked.base && !IsWearing(current, clicked.id) && |Clothes(current)| >= 3
  {
    if clicked.base then Some([clicked] + Clothes(current))
    else if !IsWearing(current, clicked.id) then
      if |Clothes(current)| < 3 then Some(current + [clicked]) else None
    else Some(WithoutId(current, clicked.id))
  }

  /** Attire items are identified by their id: an item worn with the clicked item's id
      is the clicked item. */
  predicate IdsIdentify(current: seq<Attire>, clicked: Attire)
  {
    forall a :: a in current && a.id == clicked.id ==> a == clicked
  }

  /** Clicking a base wears it, first, over the current clothes in their order. */
  lemma ClickBaseReplacesBase(current: seq<Attire>, clicked: Attire)
    requires clicked.base
    ensures var r := ClickAttire(current, clicked);
      r.Some? && r.value[0] == clicked && r.value[1..] == Clothes(current)
      && Bases(r.value) == [clicked] && Clothes(r.value) == Clothes(current)
  {
    var r := [clicked] + Clothes(current);
    BasesAppend([clicked], Clothes(current));
    ClothesAppend([clicked], Clothes(current));
    ClothesOfClothes(current);
  }

  /** Clicking an unworn item of clothing adds it at the end exactly when fewer than
      three are worn; otherwise nothing changes. */
  lemma ClickUnwornAddsUpToThree(current: seq<Attire>, clicked: Attire)
    requires !clicked.base && !IsWearing(current, clicked.id)
    ensures ClickAttire(current, clicked).Some? <==> |Clothes(current)| < 3
    ensures ClickAttire(current, clicked).Some? ==> ClickAttire(current, clicked).value == current + [clicked]
  {
  }

  /** Clicking a worn item takes off every entry with its id and keeps the rest. */
  lemma ClickWornRemoves(current: seq<Attire>, clicked: Attire)
    requires !clicked.base && IsWearing(current, clicked.id)
    ensures var r := ClickAttire(current, clicked);
      r.Some? && !IsWearing(r.value, clicked.id)
      && forall a :: a in current && a.id != clicked.id ==> a in r.value
  {
  }

  /** Taking off clothing leaves the bases alone and wears no more clothes than before. */
  lemma {:induction false} WithoutClothingId(current: seq<Attire>, clicked: Attire)
    requires !clicked.base && IdsIdentify(current, clicked)
    ensures Bases(WithoutId(current, clicked.id)) == Bases(current)
    ensures |Clothes(WithoutId(current, clicked.id))| <= |Clothes(current)|
  {
    if current != [] {
      WithoutClothingId(current[1..], clicked);
    }
  }

  /** Every click keeps a valid outfit valid: exactly one base and at most three
      clothes, so the `changeSettings` it makes never throws. */
  lemma ClickKeepsOutfitValid(current: seq<Attire>, clicked: Attire)
    requires OneBase(current) && |Clothes(current)| <= 3 && IdsIdentify(current, clicked)
    ensures var r := ClickAttire(current, clicked);
      r.Some? ==> OneBase(r.value) && |Clothes(r.value)| <= 3
  {
    if clicked.base {
      ClickBaseReplacesBase(current, clicked);
    } else if !IsWearing(current, clicked.id) {
      BasesAppend(current, [clicked]);
      ClothesAppend(current, [clicked]);
    } else {
      WithoutClothingId(current, clicked);
    }
  }

  /** The style counter, `${clothes}/3`. */
  function StyleCount(attire: seq<Attire>): (text: string)
    ensures EndsWith(text, "/3")
    ensures text[..|text| - 2] == NatToString(|Clothes(attire)|)
  {
    NatToString(|Clothes(attire)|) + "/3"
  }

  /** An outfit with at most three clothes shows one of the four counter texts. */
  lemma StyleCountAtMostThree(attire: seq<Attire>)
    requires |Clothes(attire)| <= 3
    ensures StyleCount(attire) in ["0/3", "1/3", "2/3", "3/3"]
  {
    var n := |Clothes(attire)|;
    assert NatToString(n) == [DigitChar(n)];
    assert StyleCount(attire) == [DigitChar(n), '/', '3'];
  }

  /** After any click on a valid outfit the counter still reads at most "3/3". */
  lemma ClickedStyleCount(current: seq<Attire>, clicked: Attire)
    requires OneBase(current) && |Clothes(current)| <= 3 && IdsIdentify(current, clicked)
    ensures var r := ClickAttire(current, clicked);
      r.Some? ==> StyleCount(r.value) in ["0/3", "1/3", "2/3", "3/3"]
  {
    ClickKeepsOutfitValid(current, clicked);
    var r := ClickAttire(current, clicked);
    if r.Some? {
      StyleCountAtMostThree(r.value);
    }
  }

  // ---------------------------------------------------------------------------
  // The statistics panel

  /** The play-time breakdown: whole seconds of `totalTime` (milliseconds, floored)
      split into days, hours under 24, minutes under 60 and seconds under 60. */
  method PlayTimeBreakdown(totalTime: int) returns (days: int, hours: int, minutes: int, seconds: int)
    ensures 0 <= hours < 24 && 0 <= minutes < 60 && 0 <= seconds < 60
    ensures days * 86400 + hours * 3600 + minutes * 60 + seconds == totalTime / 1000
  {
    seconds := totalTime / 1000;
    minutes := seconds / 60;
    hours := minutes / 60;
    days := hours / 24;

    hours := hours - days * 24;
    minutes := minutes - days * 24 * 60 - hours * 60;
    seconds := seconds - days * 24 * 60 * 60 - hours * 60 * 60 - minutes * 60;
  }

  /** `[days, hours, minutes, seconds].filter(d => !!d)`. */
  function NonZero(parts: seq<int>): (r: seq<int>)
    ensures |r| <= |parts|
    ensures forall i :: 0 <= i < |r| ==> r[i] != 0
    ensures forall x :: x in parts && x != 0 ==> x in r
    ensures forall x :: x in r ==> x in parts && x != 0
  {
    if parts == [] then []
    else if parts[0] != 0 then [parts[0]] + NonZero(parts[1..])
    else NonZero(parts[1..])
  }

  /** `filter` distributes over concatenation: the non-zero parts keep their order
      and multiplicity. */
  lemma {:induction false} NonZeroAppend(a: seq<int>, b: seq<int>)
    ensures NonZero(a + b) == NonZero(a) + NonZero(b)
  {
    if a == [] {
      assert a + b == b;
    } else {
      assert (a + b)[0] == a[0] && (a + b)[1..] == a[1..] + b;
      NonZeroAppend(a[1..], b);
    }
  }

  function NumbersToStrings(xs: seq<int>): (r: seq<string>)
    ensures |r| == |xs|
    ensures forall i :: 0 <= i < |r| ==> r[i] == IntToString(xs[i])
  {
    if xs == [] then [] else [IntToString(xs[0])] + NumbersToStrings(xs[1..])
  }

  /** The "Play Time" value: the non-zero parts joined by ':', with "s" appended when
      exactly one part is non-zero. */
  function PlayTimeText(days: int, hours: int, minutes: int, seconds: int): (text: string)
    ensures text == "" <==> days == 0 && hours == 0 && minutes == 0 && seconds == 0
  {
    var parts := [days, hours, minutes, seconds];
    var time := NonZero(parts);
    assert Join(NumbersToStrings(time), ":") == "" <==> time == [] by {
      if time != [] {
        IntToStringEndsInDigit(time[|time| - 1]);
        JoinEndsWithLastPart(NumbersToStrings(time), ":");
      }
    }
    assert time == [] <==> days == 0 && hours == 0 && minutes == 0 && seconds == 0 by {
      if time != [] {
        assert time[0] in parts;
      }
      if days != 0 { assert parts[0] in time; }
      if hours != 0 { assert parts[1] in time; }
      if minutes != 0 { assert parts[2] in time; }
      if seconds != 0 { assert parts[3] in time; }
    }
    Join(NumbersToStrings(time), ":") + (if |time| == 1 then "s" else "")
  }

  /** The number of non-zero values among `parts`. */
  function CountNonZero(parts: seq<int>): nat
  {
    if parts == [] then 0 else (if parts[0] != 0 then 1 else 0) + CountNonZero(parts[1..])
  }

  lemma {:induction false} NonZeroCounts(parts: seq<int>)
    ensures |NonZero(parts)| == CountNonZero(parts)
  {
    if parts != [] {
      NonZeroCounts(parts[1..]);
    }
  }

  /** A join of non-empty parts ends with the last character of the last part. */
  lemma {:induction false} JoinEndsWithLastPart(parts: seq<string>, sep: string)
    requires |parts| >= 1 && |parts[|parts| - 1]| >= 1
    ensures var j := Join(parts, sep); |j| >= 1 && j[|j| - 1] == parts[|parts| - 1][|parts[|parts| - 1]| - 1]
  {
    if |parts| > 1 {
      JoinEndsWithLastPart(parts[1..], sep);
    }
  }

  /** The time text ends in 's' exactly when one of the four parts is non-zero (number
      texts end in a digit). */
  lemma PlayTimeSuffix(days: int, hours: int, minutes: int, seconds: int)
    ensures var text := PlayTimeText(days, hours, minutes, seconds);
      (|text| >= 1 && text[|text| - 1] == 's') <==> CountNonZero([days, hours, minutes, seconds]) == 1
  {
    var time := NonZero([days, hours, minutes, seconds]);
    NonZeroCounts([days, hours, minutes, seconds]);
    var texts := NumbersToStrings(time);
    if |time| >= 1 {
      var last := IntToString(time[|time| - 1]);
      JoinEndsWithLastPart(texts, ":");
      var j := Join(texts, ":");
      if |time| != 1 {
        IntToStringEndsInDigit(time[|time| - 1]);
      }
    }
  }

  lemma IntToStringEndsInDigit(i: int)
    ensures var s := IntToString(i); '0' <= s[|s| - 1] <= '9'
  {
    if i < 0 {
      var s := NatToString(-i);
      assert IntToString(i)[|IntToString(i)| - 1] == s[|s| - 1];
    }
  }

  /** The statistics rows, in order, with "Royale Wins" dropped when it is 0 and "Best
      Position" dropped when it is 0. */
  function Presentation(stats: Statistics, playTime: string): (rows: seq<(string, string)>)
    ensures 6 <= |rows| <= 8
    ensures rows[|rows| - 6] == ("Top Score", IntToString(stats.bestScore))
    ensures rows[|rows| - 2] == ("Play Time", playTime) && rows[|rows| - 1] == ("Flaps", IntToString(stats.totalFlaps))
  {
    (if stats.royaleWins == 0 then [] else [("Royale Wins", IntToString(stats.royaleWins))])
    + (if stats.bestPosition == 0 then [] else [("Best Position", IntToString(stats.bestPosition))])
    + [("Top Score", IntToString(stats.bestScore)),
       ("Games Played", IntToString(stats.gamesPlayed)),
       ("First pipe fails", IntToString(stats.instaDeaths)),
       ("Birds Past", IntToString(stats.birdsBeaten)),
       ("Play Time", playTime),
       ("Flaps", IntToString(stats.totalFlaps))]
  }

  predicate HasRow(rows: seq<(string, string)>, key: string)
  {
    exists i :: 0 <= i < |rows| && rows[i].0 == key
  }

  lemma PresentationRows(stats: Statistics, playTime: string)
    ensures HasRow(Presentation(stats, playTime), "Royale Wins") <==> stats.royaleWins != 0
    ensures HasRow(Presentation(stats, playTime), "Best Position") <==> stats.bestPosition != 0
  {
    var rows := Presentation(stats, playTime);
    var tail := rows[|rows| - 6..];
    assert forall i :: |rows| - 6 <= i < |rows| ==> rows[i].0 != "Royale Wins" && rows[i].0 != "Best Position";
    if stats.royaleWins != 0 {
      assert rows[0].0 == "Royale Wins";
    }
    if stats.bestPosition != 0 {
      var k := if stats.royaleWins == 0 then 0 else 1;
      assert rows[k].0 == "Best Position";
    }
  }

  /** For runs with non-negative positions the panel shows exactly one of "Royale Wins"
      and "Best Position": a win means the best position is 0, and no win means it is
      not. */
  lemma ShowsWinsOrBestPosition(runs: seq<GameResults>, playTime: string)
    requires forall i :: 0 <= i < |runs| ==> runs[i].position >= 0
    ensures var rows := Presentation(StatisticsOf(runs), playTime);
      HasRow(rows, "Royale Wins") != HasRow(rows, "Best Position")
  {
    var stats := StatisticsOf(runs);
    PresentationRows(stats, playTime);
    RoyaleWinsZero(runs);
    BestPositionBounds(runs);
    if stats.royaleWins != 0 {
      var i :| 0 <= i < |runs| && runs[i].position == 0;
      assert stats.bestPosition <= 0;
    }
  }
}
