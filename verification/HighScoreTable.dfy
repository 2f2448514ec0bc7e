/** The high score table in place, with one slot beyond it for the entry that
 drops out. */
module HighScoreTables {
  import opened Machine
  import S = Scores
  import H = HighScores

  class HighScoreTable {
    const slots: array<H.Entry>
    const width: nat
    var calls: seq<H.Call>

    ghost predicate Valid()
      reads this, slots
    {
      slots.Length == H.HS_COUNT + 1 && H.Table(Abs(), width)
    }

    // The table proper.
    ghost function Abs(): seq<H.Entry>
      reads this, slots
      requires slots.Length == H.HS_COUNT + 1
    {
      slots[..H.HS_COUNT]
    }

    constructor (t: seq<H.Entry>, width: nat)
      requires H.Table(t, width)
      ensures Valid() && fresh(slots) && Abs() == t && this.width == width && calls == []
    {
      slots := new H.Entry[H.HS_COUNT + 1](i => if 0 <= i < |t| then t[i] else t[0]);
      this.width := width;
      calls := [];
      new;
      assert slots[..H.HS_COUNT] == t;
    }

    // Free a position by pushing the entries from there on down, recursively;
    // the last one goes to the slot beyond the table.
    method Free(position: nat)
      requires slots.Length == H.HS_COUNT + 1 && position < H.HS_COUNT
      modifies slots
      ensures forall i | 0 <= i <= position :: slots[i] == old(slots[i])
      ensures forall i | position < i <= H.HS_COUNT :: slots[i] == old(slots[i - 1])
      decreases H.HS_COUNT - position
    {
      if position < H.HS_COUNT - 1 {
        Free(position + 1);
      }
      slots[position + 1] := slots[position];
    }

    method CheckPlayer(player: nat, score: seq<U8>)
      requires Valid() && |score| == width && S.Valid(score) && player < H.MAX_PLAYERS
      modifies slots
      ensures Valid() && Abs() == H.CheckPlayer(old(Abs()), player, score, width)
    {
      ghost var t := Abs();
      var hs := 0;
      while hs < H.HS_COUNT
        invariant hs <= H.HS_COUNT && Abs() == t
        invariant H.Position(t, score, 0) == H.Position(t, score, hs)
      {
        assert slots[hs] == t[hs] && H.Fits(t[hs], width);
        if S.Compare(score, slots[hs].score) > 0 {
          Free(hs);
          assert H.Freed(t, hs) == Abs();
          slots[hs] := H.Entry(score, slots[hs].initials[0 := player]);
          assert Abs() == H.CheckPlayer(t, player, score, width);
          return;
        }
        hs := hs + 1;
      }
    }

    method EnterInitials(position: nat, initials: seq<U8>)
      requires Valid() && position < H.HS_COUNT && |initials| == H.HIGH_SCORE_NAMESZ
      modifies slots, this`calls
      ensures Valid()
      ensures var (t, made) := H.EnterOne(old(Abs()), position, initials, width); Abs() == t && calls == old(calls) + made
    {
      ghost var t := Abs();
      assert H.Fits(t[position], width);
      var e := slots[position];
      if e.initials[0] <= H.MAX_PLAYERS {
        calls := calls + [H.Call(position, e.initials[0] + 1)];
        slots[position] := e.(initials := initials);
        assert Abs() == t[position := e.(initials := initials)];
      }
    }

    method CheckPlayers(scores: seq<seq<U8>>)
      requires Valid() && H.Players(scores, width)
      modifies slots
      ensures Valid() && Abs() == H.CheckFrom(old(Abs()), scores, 0, width)
    {
      hide H.CheckPlayer;
      var player := 0;
      while player < |scores|
        invariant player <= |scores| && Valid()
        invariant H.CheckFrom(Abs(), scores, player, width) == H.CheckFrom(old(Abs()), scores, 0, width)
      {
        CheckPlayer(player, scores[player]);
        player := player + 1;
      }
    }

    method EnterAll(entered: seq<seq<U8>>)
      requires Valid() && H.Entered(entered)
      modifies slots, this`calls
      ensures Valid()
      ensures var (t, made) := H.Enter(old(Abs()), H.HS_COUNT - 1, entered, width);
        Abs() == t && calls == old(calls) + made
    {
      hide H.EnterOne;
      ghost var (t, made) := H.Enter(Abs(), H.HS_COUNT - 1, entered, width);
      var position := H.HS_COUNT;
      while position > 0
        invariant position <= H.HS_COUNT && Valid()
        invariant t == H.Enter(Abs(), position - 1, entered, width).0
        invariant old(calls) + made == calls + H.Enter(Abs(), position - 1, entered, width).1
      {
        position := position - 1;
        EnterInitials(position, entered[position]);
      }
    }

    // All the players in order, then the initials from the lowest position up.
    method Check(scores: seq<seq<U8>>, entered: seq<seq<U8>>)
      requires Valid() && H.Players(scores, width) && H.Entered(entered)
      modifies slots, this`calls
      ensures Valid()
      ensures var (t, made) := H.Check(old(Abs()), scores, entered, width); Abs() == t && calls == old(calls) + made
    {
      CheckPlayers(scores);
      EnterAll(entered);
    }
  }
}
