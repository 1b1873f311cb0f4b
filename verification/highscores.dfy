/** The per-level highscore files, as one store that the program reads and
    rewrites in place. A level with no file reads as an empty table. */
module Highscores {
  import opened Slices
  import opened Ranking

  /** Every table in the map is one the program could have written. */
  ghost predicate AllValid(tables: map<int, seq<Entry>>) {
    forall level :: level in tables ==> ValidTable(tables[level])
  }

  lemma {:induction false} SaveKeepsAllValid(tables: map<int, seq<Entry>>, level: int, t: seq<Entry>)
    requires AllValid(tables) && ValidTable(t)
    ensures AllValid(tables[level := t])
  {
  }

  class HighscoreStore {
    /** The saved table of every level that has one, keyed by level. */
    var tables: map<int, seq<Entry>>

    /** Every table the program has written is sorted and at most
        `MaxHighscores` long. */
    ghost predicate Valid()
      reads this
    {
      AllValid(tables)
    }

    /** `load_highscores(level)`: the saved table, or `[]` when none exists. */
    function Load(level: int): (t: seq<Entry>)
      reads this
      ensures level !in tables ==> t == []
      ensures Valid() ==> ValidTable(t)
    {
      if level in tables then tables[level] else []
    }

    /** No level has been saved yet. */
    constructor ()
      ensures Valid() && tables == map[]
    {
      tables := map[];
    }

    /** `add_score`: load the level's table, insert the entry, keep the ten
        best, save. Other levels are untouched. */
    method AddScore(level: int, name: string, score: int)
      requires Valid()
      modifies this
      ensures Valid()
      ensures tables == old(tables)[level := Ranking.AddScore(old(Load(level)), Entry(name, score))]
    {
      var scores := Load(level);
      scores := Ranking.AddScore(scores, Entry(name, score));
      SaveKeepsAllValid(tables, level, scores);
      tables := tables[level := scores];
    }

    /** `maybe_add_highscore`: when the score qualifies, insert it under
        `name` (the answer to the name prompt) and save; otherwise leave the
        store as it was. */
    method MaybeAddHighscore(level: int, score: int, name: string) returns (added: bool)
      requires Valid()
      modifies this
      ensures Valid()
      ensures added == Qualifies(old(Load(level)), score)
      ensures tables == if added then old(tables)[level := Ranking.AddScore(old(Load(level)), Entry(name, score))]
                        else old(tables)
    {
      var scores := Load(level);
      added := Qualifies(scores, score);
      if added {
        scores := scores + [Entry(name, score)];
        scores := SortDesc(scores);
        scores := Truncate(scores, MaxHighscores);
        assert scores == Ranking.AddScore(old(Load(level)), Entry(name, score));
        SaveKeepsAllValid(tables, level, scores);
        tables := tables[level := scores];
      }
    }
  }
}
