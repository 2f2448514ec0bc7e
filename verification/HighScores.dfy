/**
 The high score table: five entries, the first the grand champion.  Each
 player of a game is compared with the entries from the top and inserted above
 the first one he beats; the entries that then carry a player number instead of
 initials are prompted for.
 */
module HighScores {
  import opened Machine
  import S = Scores

  const HS_COUNT := 5
  const HIGH_SCORE_NAMESZ := 3
  const MAX_PLAYERS := 4

  // The first byte of the initials of a new entry is the player number.
  datatype Entry = Entry(score: seq<U8>, initials: seq<U8>)

  predicate Fits(e: Entry, width: nat) {
    |e.score| == width && S.Valid(e.score) && |e.initials| == HIGH_SCORE_NAMESZ
  }

  predicate Table(t: seq<Entry>, width: nat) {
    |t| == HS_COUNT && forall i | 0 <= i < |t| :: Fits(t[i], width)
  }

  // The scores of the players of a game.
  predicate Players(scores: seq<seq<U8>>, width: nat) {
    |scores| <= MAX_PLAYERS && forall p | 0 <= p < |scores| :: |scores[p]| == width && S.Valid(scores[p])
  }

  predicate Descending(t: seq<Entry>) {
    forall i, j | 0 <= i < j < |t| :: S.Value(t[i].score) >= S.Value(t[j].score)
  }

  // ---------- the algorithm on the table ----------

  // The first position from k on with a lower score, or the end.
  function Position(t: seq<Entry>, score: seq<U8>, k: nat): (p: nat)
    requires k <= |t| && forall i | 0 <= i < |t| :: |t[i].score| == |score|
    ensures k <= p <= |t|
    ensures forall i | k <= i < p :: S.Compare(score, t[i].score) <= 0
    ensures p < |t| ==> S.Compare(score, t[p].score) > 0
    decreases |t| - k
  {
    if k == |t| || S.Compare(score, t[k].score) > 0 then k else Position(t, score, k + 1)
  }

  // Everything from a position on moves down one; the last entry drops out.
  function Freed(t: seq<Entry>, position: nat): seq<Entry>
    requires position < |t|
  {
    t[..position + 1] + t[position..|t| - 1]
  }

  // A player who qualifies takes the entry at his position; the last two
  // initials there stay until he enters his own.
  function CheckPlayer(t: seq<Entry>, player: nat, score: seq<U8>, width: nat): (r: seq<Entry>)
    requires Table(t, width) && |score| == width && S.Valid(score) && player < MAX_PLAYERS
    ensures Table(r, width)
  {
    var p := Position(t, score, 0);
    if p == |t| then t
    else
      var freed := Freed(t, p);
      freed[p := Entry(score, freed[p].initials[0 := player])]
  }

  // The players from p on, in order.
  function CheckFrom(t: seq<Entry>, scores: seq<seq<U8>>, p: nat, width: nat): (r: seq<Entry>)
    requires Table(t, width) && Players(scores, width) && p <= |scores|
    ensures Table(r, width)
    decreases |scores| - p
  {
    if p == |scores| then t else CheckFrom(CheckPlayer(t, p, scores[p], width), scores, p + 1, width)
  }

  // Whether initials are asked for at an entry.
  predicate NeedsInitials(e: Entry)
    requires |e.initials| == HIGH_SCORE_NAMESZ
  {
    e.initials[0] <= MAX_PLAYERS
  }

  // The initials each position would be given.
  predicate Entered(entered: seq<seq<U8>>) {
    |entered| == HS_COUNT && forall i | 0 <= i < |entered| :: |entered[i]| == HIGH_SCORE_NAMESZ
  }

  // A player called to enter initials: the position and his number from one.
  datatype Call = Call(position: nat, player: nat)

  // Prompting at one position, and the call made if initials are needed.
  function EnterOne(t: seq<Entry>, position: nat, initials: seq<U8>, width: nat): (r: (seq<Entry>, seq<Call>))
    requires position < |t| && Table(t, width) && |initials| == HIGH_SCORE_NAMESZ
    ensures Table(r.0, width)
  {
    if NeedsInitials(t[position]) then
      (t[position := t[position].(initials := initials)], [Call(position, t[position].initials[0] + 1)])
    else (t, [])
  }

  // The table after prompting at positions from..0, and the calls made.
  function Enter(t: seq<Entry>, from: int, entered: seq<seq<U8>>, width: nat): (r: (seq<Entry>, seq<Call>))
    requires from < |t| && Table(t, width) && Entered(entered)
    ensures Table(r.0, width)
    decreases from
  {
    if from < 0 then (t, [])
    else
      var one := EnterOne(t, from, entered[from], width);
      var rest := Enter(one.0, from - 1, entered, width);
      (rest.0, one.1 + rest.1)
  }

  // ---------- the ranking ----------

  // A candidate for the table: an entry that is there, or a player's score.
  datatype Item = Kept(entry: Entry) | Scored(score: seq<U8>, player: nat)

  function ItemScore(x: Item): seq<U8> {
    if x.Kept? then x.entry.score else x.score
  }

  function ItemValue(x: Item): nat { S.Value(ItemScore(x)) }

  // Where the first of the highest candidates is.
  function Highest(xs: seq<Item>): (h: nat)
    requires xs != []
    ensures h < |xs|
    ensures forall i | 0 <= i < |xs| :: ItemValue(xs[i]) <= ItemValue(xs[h])
    ensures forall i | 0 <= i < h :: ItemValue(xs[i]) < ItemValue(xs[h])
  {
    if |xs| == 1 then 0
    else
      var h := Highest(xs[1..]);
      assert forall i | 1 <= i < |xs| :: xs[i] == xs[1..][i - 1];
      if ItemValue(xs[0]) >= ItemValue(xs[1 + h]) then 0 else 1 + h
  }

  function Without(xs: seq<Item>, i: nat): seq<Item>
    requires i < |xs|
  {
    xs[..i] + xs[i + 1..]
  }

  // Candidates by score, those before ahead of those after: the first of the
  // highest, then the ranking of the others.
  function Ranking(xs: seq<Item>): (r: seq<Item>)
    ensures |r| == |xs|
    decreases |xs|
  {
    if xs == [] then [] else [xs[Highest(xs)]] + Ranking(Without(xs, Highest(xs)))
  }

  // Insertion below everything as high.
  function Insert(r: seq<Item>, x: Item): (l: seq<Item>)
    ensures |l| == |r| + 1
  {
    if r == [] || ItemValue(x) > ItemValue(r[0]) then [x] + r else [r[0]] + Insert(r[1..], x)
  }

  lemma HighestUnique(xs: seq<Item>, h: nat)
    requires h < |xs|
    requires forall i | 0 <= i < |xs| :: ItemValue(xs[i]) <= ItemValue(xs[h])
    requires forall i | 0 <= i < h :: ItemValue(xs[i]) < ItemValue(xs[h])
    ensures Highest(xs) == h
  {
    var k := Highest(xs);
    assert ItemValue(xs[k]) == ItemValue(xs[h]);
  }

  // A candidate who comes last does not disturb the highest of the others
  // unless he beats it.
  lemma HighestAppend(xs: seq<Item>, x: Item)
    requires xs != []
    ensures var all, h := xs + [x], Highest(xs);
      if ItemValue(x) > ItemValue(xs[h]) then Highest(all) == |xs| && Without(all, |xs|) == xs
      else Highest(all) == h && Without(all, h) == Without(xs, h) + [x]
  {
    hide ItemValue, Without, Highest;
    HighestOfBoth(xs, x);
    WithoutAppend(xs, x, Highest(xs));
  }

  lemma HighestOfBoth(xs: seq<Item>, x: Item)
    requires xs != []
    ensures Highest(xs + [x]) == if ItemValue(x) > ItemValue(xs[Highest(xs)]) then |xs| else Highest(xs)
  {
    hide ItemValue, Highest;
    var all, h := xs + [x], Highest(xs);
    assert forall i | 0 <= i < |xs| :: all[i] == xs[i];
    HighestUnique(all, if ItemValue(x) > ItemValue(xs[h]) then |xs| else h);
  }

  lemma WithoutAppend(xs: seq<Item>, x: Item, h: nat)
    requires h < |xs|
    ensures Without(xs + [x], |xs|) == xs && Without(xs + [x], h) == Without(xs, h) + [x]
  {
  }

  // A candidate who comes last is inserted into the ranking of the others.
  lemma {:induction false} RankingInsert(xs: seq<Item>, x: Item)
    ensures Ranking(xs + [x]) == Insert(Ranking(xs), x)
    decreases |xs|
  {
    hide ItemValue, Highest, Without;
    var all := xs + [x];
    if xs == [] {
      RankingOne(x);
      assert all == [x];
    } else {
      HighestAppend(xs, x);
      var h := Highest(xs);
      var top, rest := xs[h], Ranking(Without(xs, h));
      assert Ranking(xs) == [top] + rest && ([top] + rest)[1..] == rest;
      if ItemValue(x) <= ItemValue(top) {
        RankingInsert(Without(xs, h), x);
        assert all[h] == top;
      }
    }
  }

  lemma RankingOne(x: Item)
    ensures Ranking([x]) == [x]
  {
    assert Without([x], 0) == [];
  }

  predicate Sorted(xs: seq<Item>) {
    forall i, j | 0 <= i < j < |xs| :: ItemValue(xs[i]) >= ItemValue(xs[j])
  }

  lemma {:induction false} RankingOfSorted(xs: seq<Item>)
    requires Sorted(xs)
    ensures Ranking(xs) == xs
  {
    hide ItemValue;
    if xs != [] {
      HighestUnique(xs, 0);
      assert Without(xs, 0) == xs[1..];
      RankingOfSorted(xs[1..]);
    }
  }

  // A ranking has the same candidates, in descending order.
  lemma {:induction false} RankingSorts(xs: seq<Item>)
    ensures multiset(Ranking(xs)) == multiset(xs) && Sorted(Ranking(xs))
    decreases |xs|
  {
    hide ItemValue;
    if xs != [] {
      var h := Highest(xs);
      var rest := Without(xs, h);
      WithoutHighest(xs);
      hide Highest, Without, Sorted;
      RankingSorts(rest);
      SortedCons(xs[h], rest, Ranking(rest));
    }
  }

  lemma WithoutHighest(xs: seq<Item>)
    requires xs != []
    ensures var top, rest := xs[Highest(xs)], Without(xs, Highest(xs));
      && multiset(xs) == multiset{top} + multiset(rest)
      && forall i | 0 <= i < |rest| :: ItemValue(rest[i]) <= ItemValue(top)
  {
    hide ItemValue;
    var h := Highest(xs);
    var rest := Without(xs, h);
    assert xs == xs[..h] + [xs[h]] + xs[h + 1..];
    forall i | 0 <= i < |rest| ensures ItemValue(rest[i]) <= ItemValue(xs[h]) {
      assert rest[i] == xs[if i < h then i else i + 1];
    }
  }

  lemma SortedCons(top: Item, rest: seq<Item>, r: seq<Item>)
    requires Sorted(r) && multiset(r) == multiset(rest)
    requires forall i | 0 <= i < |rest| :: ItemValue(rest[i]) <= ItemValue(top)
    ensures Sorted([top] + r)
  {
    hide ItemValue;
    forall j | 0 <= j < |r| ensures ItemValue(r[j]) <= ItemValue(top) {
      assert r[j] in multiset(rest);
      assert r[j] in rest;
    }
  }

  // ---------- the table holds the top of the ranking ----------

  function Keep(t: seq<Entry>): seq<Item> {
    seq(|t|, i requires 0 <= i < |t| => Kept(t[i]))
  }

  // The entries there and the first n players.
  function Candidates(t: seq<Entry>, scores: seq<seq<U8>>, n: nat): seq<Item>
    requires n <= |scores|
  {
    Keep(t) + seq(n, p requires 0 <= p < n => Scored(scores[p], p))
  }

  // An entry shows a candidate.
  predicate Shows(e: Entry, x: Item) {
    if x.Kept? then e == x.entry
    else e.score == x.score && |e.initials| == HIGH_SCORE_NAMESZ && e.initials[0] == x.player
  }

  predicate Matches(t: seq<Entry>, r: seq<Item>) {
    |t| <= |r| && forall i | 0 <= i < |t| :: Shows(t[i], r[i])
  }

  // The comparison in the table agrees with the order of the ranking.
  lemma Beats(t: seq<Entry>, r: seq<Item>, x: Item, width: nat, k: nat)
    requires Table(t, width) && Matches(t, r) && |ItemScore(x)| == width && S.Valid(ItemScore(x)) && k < |t|
    ensures S.Compare(ItemScore(x), t[k].score) > 0 <==> ItemValue(x) > ItemValue(r[k])
  {
    hide S.Value, S.Compare, S.Valid;
    assert Fits(t[k], width) && Shows(t[k], r[k]);
    S.CompareIsNumeric(ItemScore(x), t[k].score);
  }

  // What is as high as x stays where it is; x comes after the first p of it.
  lemma {:induction false} InsertAfter(r: seq<Item>, x: Item, p: nat)
    requires p <= |r| && forall i | 0 <= i < p :: ItemValue(r[i]) >= ItemValue(x)
    ensures Insert(r, x)[..p] == r[..p]
    ensures p < |r| && ItemValue(x) > ItemValue(r[p]) ==> Insert(r, x) == r[..p] + [x] + r[p..]
  {
    hide ItemValue;
    if p > 0 {
      InsertAfter(r[1..], x, p - 1);
      assert r[..p] == [r[0]] + r[1..][..p - 1];
    }
  }

  // Checking one player keeps the table equal to the top of the ranking.
  lemma CheckPlayerRanks(t: seq<Entry>, xs: seq<Item>, player: nat, score: seq<U8>, width: nat)
    requires Table(t, width) && |score| == width && S.Valid(score) && player < MAX_PLAYERS
    requires Matches(t, Ranking(xs))
    ensures Matches(CheckPlayer(t, player, score, width), Ranking(xs + [Scored(score, player)]))
  {
    hide Ranking, ItemValue, Position, S.Valid, Insert;
    var x, r := Scored(score, player), Ranking(xs);
    RankingInsert(xs, x);
    var p, l := Position(t, score, 0), Insert(r, x);
    forall i | 0 <= i < |t| ensures S.Compare(score, t[i].score) > 0 <==> ItemValue(x) > ItemValue(r[i]) {
      Beats(t, r, x, width, i);
    }
    InsertAfter(r, x, p);
    var after := CheckPlayer(t, player, score, width);
    forall i | 0 <= i < |after| ensures Shows(after[i], l[i]) {
      if p < |t| {
        if i < p { assert Shows(t[i], r[i]); }
        if i > p { assert Shows(t[i - 1], r[i - 1]); }
      } else {
        assert l[i] == l[..|t|][i] == r[i];
      }
    }
  }

  lemma CandidatesStep(t: seq<Entry>, scores: seq<seq<U8>>, p: nat)
    requires p < |scores|
    ensures Candidates(t, scores, p + 1) == Candidates(t, scores, p) + [Scored(scores[p], p)]
  {
  }

  lemma {:induction false} CheckFromRanks(t: seq<Entry>, t0: seq<Entry>, scores: seq<seq<U8>>, p: nat, width: nat)
    requires Table(t, width) && Players(scores, width) && p <= |scores|
    requires Matches(t, Ranking(Candidates(t0, scores, p)))
    ensures Matches(CheckFrom(t, scores, p, width), Ranking(Candidates(t0, scores, |scores|)))
    decreases |scores| - p
  {
    hide Ranking, Matches, Table, CheckPlayer, Candidates, S.Valid;
    if p < |scores| {
      CandidatesStep(t0, scores, p);
      CheckPlayerRanks(t, Candidates(t0, scores, p), p, scores[p], width);
      CheckFromRanks(CheckPlayer(t, p, scores[p], width), t0, scores, p + 1, width);
    }
  }

  lemma MatchesDescending(t: seq<Entry>, r: seq<Item>)
    requires Matches(t, r) && Sorted(r)
    ensures Descending(t)
  {
    forall i, j | 0 <= i < j < |t| ensures S.Value(t[i].score) >= S.Value(t[j].score) {
      assert Shows(t[i], r[i]) && Shows(t[j], r[j]);
    }
  }

  // From a descending table, processing all the players leaves the first five
  // of the ranking of the old entries and then the players in order:
  // incumbents win ties, and so do earlier players.
  lemma CheckIsTopFive(t: seq<Entry>, scores: seq<seq<U8>>, width: nat)
    requires Table(t, width) && Players(scores, width) && Descending(t)
    ensures var r := CheckFrom(t, scores, 0, width);
      Matches(r, Ranking(Candidates(t, scores, |scores|))) && Descending(r)
  {
    var xs := Candidates(t, scores, 0);
    assert xs == Keep(t);
    RankingOfSorted(xs);
    CheckFromRanks(t, t, scores, 0, width);
    var all := Candidates(t, scores, |scores|);
    RankingSorts(all);
    MatchesDescending(CheckFrom(t, scores, 0, width), Ranking(all));
  }

  // ---------- prompting ----------

  // The calls owed to the players in positions from..0 of a ranking.
  function Owed(r: seq<Item>, from: int): seq<Call>
    requires from < |r|
    decreases from
  {
    if from < 0 then []
    else if r[from].Scored? then [Call(from, r[from].player + 1)] + Owed(r, from - 1)
    else Owed(r, from - 1)
  }

  lemma {:induction false} EnterLeaves(t: seq<Entry>, from: int, entered: seq<seq<U8>>, width: nat)
    requires -1 <= from < |t| && Table(t, width) && Entered(entered)
    ensures var r := Enter(t, from, entered, width).0;
      && (forall i | from < i < |t| :: r[i] == t[i])
      && (forall i | 0 <= i <= from :: r[i] == if NeedsInitials(t[i]) then t[i].(initials := entered[i]) else t[i])
    decreases from
  {
    if from >= 0 {
      EnterLeaves(EnterOne(t, from, entered[from], width).0, from - 1, entered, width);
    }
  }

  lemma {:induction false} OwedBelow(r: seq<Item>, from: int)
    requires -1 <= from < |r|
    ensures forall c | c in Owed(r, from) :: c.position <= from
    decreases from
  {
    if from >= 0 { OwedBelow(r, from - 1); }
  }

  // The calls for the entries that look like a player number.
  function Called(t: seq<Entry>, from: int, width: nat): seq<Call>
    requires from < |t| && Table(t, width)
    decreases from
  {
    if from < 0 then [] else EnterOne(t, from, t[from].initials, width).1 + Called(t, from - 1, width)
  }

  // Entering initials at one position does not affect the calls for the others.
  lemma {:induction false} EnterCalls(t: seq<Entry>, t0: seq<Entry>, from: int, entered: seq<seq<U8>>, width: nat)
    requires -1 <= from < |t| && Table(t, width) && Table(t0, width) && Entered(entered)
    requires forall i | 0 <= i <= from :: t[i] == t0[i]
    ensures Enter(t, from, entered, width).1 == Called(t0, from, width)
    decreases from
  {
    if from >= 0 {
      var one := EnterOne(t, from, entered[from], width);
      assert one.1 == EnterOne(t0, from, t0[from].initials, width).1;
      assert forall i | 0 <= i < from :: one.0[i] == t[i];
      hide EnterOne;
      EnterCalls(one.0, t0, from - 1, entered, width);
    }
  }

  lemma CalledStep(t: seq<Entry>, from: nat, width: nat)
    requires from < |t| && Table(t, width)
    ensures Called(t, from, width) == (if NeedsInitials(t[from]) then [Call(from, t[from].initials[0] + 1)] else [])
      + Called(t, from - 1, width)
  {
  }

  lemma OwedStep(r: seq<Item>, from: nat)
    requires from < |r|
    ensures Owed(r, from) == (if r[from].Scored? then [Call(from, r[from].player + 1)] else []) + Owed(r, from - 1)
  {
  }

  // The calls made are exactly those owed, if and only if no incumbent that
  // is left has initials that look like a player number.
  lemma {:induction false} CallsIff(t: seq<Entry>, r: seq<Item>, from: int, width: nat)
    requires -1 <= from < |t| && Table(t, width) && |t| <= |r|
    requires forall i | 0 <= i <= from :: Shows(t[i], r[i]) && (r[i].Scored? ==> r[i].player < MAX_PLAYERS)
    ensures Called(t, from, width) == Owed(r, from) <==>
      forall i | 0 <= i <= from :: r[i].Kept? ==> !NeedsInitials(t[i])
    decreases from
  {
    hide Shows, Fits, Called, Owed, EnterOne;
    if from < 0 {
      NoCalls(t, r, width);
    } else {
      CallsIff(t, r, from - 1, width);
      OwedBelow(r, from - 1);
      CalledStep(t, from, width);
      OwedStep(r, from);
      ShownMark(t, r, from, width);
      var mark: nat := t[from].initials[0];
      CallsAgree(Called(t, from - 1, width), Owed(r, from - 1), Call(from, mark + 1), NeedsInitials(t[from]), r[from].Scored?);
    }
  }

  lemma NoCalls(t: seq<Entry>, r: seq<Item>, width: nat)
    requires Table(t, width)
    ensures Called(t, -1, width) == [] && Owed(r, -1) == []
  {
  }

  lemma ShownMark(t: seq<Entry>, r: seq<Item>, i: nat, width: nat)
    requires i < |t| && i < |r| && Table(t, width) && Shows(t[i], r[i]) && (r[i].Scored? ==> r[i].player < MAX_PLAYERS)
    ensures |t[i].initials| == HIGH_SCORE_NAMESZ
    ensures r[i].Scored? ==> NeedsInitials(t[i]) && t[i].initials[0] == r[i].player
  {
  }

  lemma CallsAgree(called: seq<Call>, owed: seq<Call>, call: Call, needed: bool, scored: bool)
    requires scored ==> needed
    requires forall c | c in owed :: c.position < call.position
    ensures (if needed then [call] else []) + called == (if scored then [call] else []) + owed
      <==> called == owed && needed == scored
  {
    if needed && scored {
      assert ([call] + called)[1..] == called && ([call] + owed)[1..] == owed;
    } else if needed {
      assert call in [call] + called && call !in [] + owed;
    } else {
      assert [] + called == called && [] + owed == owed;
    }
  }

  // ---------- a whole check ----------

  function Check(t: seq<Entry>, scores: seq<seq<U8>>, entered: seq<seq<U8>>, width: nat): (r: (seq<Entry>, seq<Call>))
    requires Table(t, width) && Players(scores, width) && Entered(entered)
    ensures Table(r.0, width)
  {
    Enter(CheckFrom(t, scores, 0, width), HS_COUNT - 1, entered, width)
  }

  // What an entry is once its player has entered his initials.
  function Final(x: Item, initials: seq<U8>): Entry {
    if x.Kept? then x.entry else Entry(x.score, initials)
  }

  // An incumbent with real initials, or one of the players.
  predicate Proper(x: Item) {
    if x.Kept? then |x.entry.initials| == HIGH_SCORE_NAMESZ && !NeedsInitials(x.entry) else x.player < MAX_PLAYERS
  }

  lemma RankingProper(xs: seq<Item>)
    requires forall i | 0 <= i < |xs| :: Proper(xs[i])
    ensures forall i | 0 <= i < |xs| :: Proper(Ranking(xs)[i])
  {
    RankingSorts(xs);
    forall i | 0 <= i < |xs| ensures Proper(Ranking(xs)[i]) {
      assert Ranking(xs)[i] in multiset(xs);
    }
  }

  // From a descending table of real initials, a check ends with the first five
  // of the ranking, incumbents untouched and each new score with the initials
  // entered for its position, and it calls exactly the players who got in,
  // from the lowest position up.
  lemma CheckOutcome(t: seq<Entry>, scores: seq<seq<U8>>, entered: seq<seq<U8>>, width: nat)
    requires Table(t, width) && Players(scores, width) && Entered(entered) && Descending(t)
    requires forall i | 0 <= i < |t| :: !NeedsInitials(t[i])
    ensures var (r, calls) := Check(t, scores, entered, width);
      var ranking := Ranking(Candidates(t, scores, |scores|));
      && (forall i | 0 <= i < HS_COUNT :: r[i] == Final(ranking[i], entered[i]))
      && calls == Owed(ranking, HS_COUNT - 1)
  {
    hide Ranking, Descending, CheckFrom, S.Valid;
    var all := Candidates(t, scores, |scores|);
    var ranking, ranked := Ranking(all), CheckFrom(t, scores, 0, width);
    CheckIsTopFive(t, scores, width);
    forall i | 0 <= i < |all| ensures Proper(all[i]) {
      if i < |t| { assert Fits(t[i], width); }
    }
    RankingProper(all);
    hide Candidates;
    forall i | 0 <= i < HS_COUNT ensures Shows(ranked[i], ranking[i]) && Proper(ranking[i]) {}
    EnterLeaves(ranked, HS_COUNT - 1, entered, width);
    EnterCalls(ranked, ranked, HS_COUNT - 1, entered, width);
    CallsIff(ranked, ranking, HS_COUNT - 1, width);
  }

  // One game: the scores of its players and the initials they would enter.
  datatype Outcome = Outcome(scores: seq<seq<U8>>, entered: seq<seq<U8>>)

  predicate Legal(g: Outcome, width: nat) { Players(g.scores, width) && Entered(g.entered) }

  function Play(t: seq<Entry>, games: seq<Outcome>, width: nat): (r: seq<Entry>)
    requires Table(t, width) && forall g | g in games :: Legal(g, width)
    ensures Table(r, width)
    decreases |games|
  {
    if games == [] then t
    else
      assert Legal(games[0], width);
      Play(Check(t, games[0].scores, games[0].entered, width).0, games[1..], width)
  }

  lemma CheckKeepsDescending(t: seq<Entry>, scores: seq<seq<U8>>, entered: seq<seq<U8>>, width: nat)
    requires Table(t, width) && Descending(t) && Players(scores, width) && Entered(entered)
    ensures Descending(Check(t, scores, entered, width).0)
  {
    hide Ranking, Matches, Candidates, CheckFrom, Enter, S.Valid, S.Value, Players;
    CheckIsTopFive(t, scores, width);
    EnterLeaves(CheckFrom(t, scores, 0, width), HS_COUNT - 1, entered, width);
  }

  // Whatever is played and entered, a descending table stays one.
  lemma {:induction false} RunKeepsDescending(t: seq<Entry>, games: seq<Outcome>, width: nat)
    requires Table(t, width) && Descending(t) && forall g | g in games :: Legal(g, width)
    ensures Descending(Play(t, games, width))
    decreases |games|
  {
    hide Table, Descending, Players, Entered, Check;
    if games != [] {
      var g := games[0];
      assert Legal(g, width);
      CheckKeepsDescending(t, g.scores, g.entered, width);
      RunKeepsDescending(Check(t, g.scores, g.entered, width).0, games[1..], width);
    }
  }

  // ---------- what goes wrong otherwise ----------

  lemma {:induction false} CalledHas(t: seq<Entry>, from: int, width: nat, i: nat)
    requires i <= from < |t| && Table(t, width) && NeedsInitials(t[i])
    ensures Call(i, t[i].initials[0] + 1) in Called(t, from, width)
    decreases from
  {
    if i < from { CalledHas(t, from - 1, width, i); }
  }

  lemma NewcomerMarked(t: seq<Entry>, player: nat, score: seq<U8>, width: nat)
    requires Table(t, width) && |score| == width && S.Valid(score) && player < MAX_PLAYERS
    requires Position(t, score, 0) < HS_COUNT
    ensures var i, after := Position(t, score, 0), CheckPlayer(t, player, score, width);
      |after| == HS_COUNT && |after[i].initials| == HIGH_SCORE_NAMESZ && after[i].initials[0] == player
  {
    hide Position, S.Valid, S.Compare;
  }

  lemma MarkedCalled(t: seq<Entry>, i: nat, entered: seq<seq<U8>>, width: nat)
    requires Table(t, width) && Entered(entered) && i < HS_COUNT && NeedsInitials(t[i])
    ensures Call(i, t[i].initials[0] + 1) in Check(t, [], entered, width).1
  {
    hide Enter, Called, Fits;
    assert CheckFrom(t, [], 0, width) == t;
    EnterCalls(t, t, HS_COUNT - 1, entered, width);
    CalledHas(t, HS_COUNT - 1, width, i);
  }

  // It happens, too, with initials that are no player number at all: a first
  // initial of 4 calls a fifth player.
  lemma FifthPlayerCalled(t: seq<Entry>, i: nat, entered: seq<seq<U8>>, width: nat)
    requires Table(t, width) && Entered(entered) && i < HS_COUNT && t[i].initials[0] == MAX_PLAYERS
    ensures Call(i, MAX_PLAYERS + 1) in Check(t, [], entered, width).1
  {
    MarkedCalled(t, i, entered, width);
    hide Check;
  }

  // It happens: a player gets into the table and the program is stopped before
  // he has entered his initials.  The next check, of a game in which nobody
  // qualifies, calls him.
  lemma StaleNumberCalled(t: seq<Entry>, player: nat, score: seq<U8>, entered: seq<seq<U8>>, width: nat)
    requires Table(t, width) && |score| == width && S.Valid(score) && player < MAX_PLAYERS && Entered(entered)
    requires Position(t, score, 0) < HS_COUNT
    ensures var after := CheckPlayer(t, player, score, width);
      Call(Position(t, score, 0), player + 1) in Check(after, [], entered, width).1
  {
    hide CheckPlayer, Position, Entered, Check, S.Valid, S.Compare;
    NewcomerMarked(t, player, score, width);
    MarkedCalled(CheckPlayer(t, player, score, width), Position(t, score, 0), entered, width);
  }
}
