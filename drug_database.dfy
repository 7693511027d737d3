/** The drug-name search: a normalisation of names, a similarity score
    between a query and a name, a best-match search, a ranked multi-match
    search and two lookups, over a database of drug records passed in. */
module DrugDatabase {
  import opened Text
  import opened Seqs
  import opened Types

  datatype DrugCategory =
    | Diabetes | Hypertension | Heart | Cholesterol | Pain | Antibiotic | Thyroid
    | Gastrointestinal | Respiratory | MentalHealth | Vitamin | Anticoagulant | OtherCategory

  /** When a drug should be taken relative to food. */
  datatype FoodTiming = TimingWithFood | TimingEmptyStomach | TimingBeforeMeal | TimingAfterMeal | TimingAny

  /** A drug record, without its instruction, warning and Ramadan-note texts. */
  datatype DrugInstruction = DrugInstruction(
    id: string,
    name: string,
    nameAr: string,
    aliases: seq<string>,
    aliasesAr: seq<string>,
    category: DrugCategory,
    foodTiming: FoodTiming,
    standardDosages: Option<seq<string>>)

  // ---------------------------------------------------------------- normalisation

  /** A character the normalisation keeps: a lower-case ASCII letter, a digit,
      an Arabic-block character or white space. */
  predicate IsSearchChar(c: char)
  {
    ('a' <= c <= 'z') || IsDigit(c) || ('؀' <= c <= 'ۿ') || IsSpace(c)
  }

  /** Lower-case, trim, drop every other character, then collapse each run of
      white space into one space. */
  function NormalizeString(s: string): string
  {
    CollapseSpaces(Filter(Trim(Lower(s)), IsSearchChar))
  }

  lemma {:induction false} LowerTwice(s: string)
    ensures Lower(Lower(s)) == Lower(s)
  {
    assert forall i :: 0 <= i < |s| ==> Lower(Lower(s))[i] == Lower(s)[i];
  }

  /** The normalisation ignores ASCII letter case. */
  lemma NormalizeIgnoresCase(s: string)
    ensures NormalizeString(Lower(s)) == NormalizeString(s)
  {
    LowerTwice(s);
  }

  /** The normalised text holds only characters the normalisation keeps,
      with no upper-case ASCII letter, its only white space is the plain
      space, and every other character comes from the input lower-cased. */
  lemma NormalizedChars(s: string)
    ensures var r := NormalizeString(s);
            && (forall i :: 0 <= i < |r| ==> IsSearchChar(r[i]) && !('A' <= r[i] <= 'Z'))
            && (forall i :: 0 <= i < |r| && IsSpace(r[i]) ==> r[i] == ' ')
            && (forall i :: 0 <= i < |r| && r[i] != ' ' ==> r[i] in Lower(s))
  {
    var low := Lower(s);
    var f := Filter(Trim(low), IsSearchChar);
    var r := CollapseSpaces(f);
    assert r == NormalizeString(s);
    CollapseSpacesChars(f);
    TrimKeeps(low);
    FilterKeeps(Trim(low));
    forall i | 0 <= i < |r|
      ensures IsSearchChar(r[i]) && !('A' <= r[i] <= 'Z')
      ensures r[i] != ' ' ==> r[i] in low
    {
      if r[i] != ' ' {
        assert r[i] in f;
      }
    }
  }

  /** The normalised text never holds two spaces in a row. */
  lemma NormalizedSingleSpaces(s: string)
    ensures SingleSpaced(NormalizeString(s))
  {
    var f := Filter(Trim(Lower(s)), IsSearchChar);
    var r := CollapseSpaces(f);
    assert NormalizeString(s) == r;
    CollapseSpacesSingle(f);
  }

  /** What survives the character filter is a kept character of the input. */
  lemma FilterKeeps(t: string)
    ensures forall c :: c in Filter(t, IsSearchChar) ==> c in t && IsSearchChar(c)
  {
  }

  // ---------------------------------------------------------------- similarity

  function WordsOf(s: string): seq<string>
  {
    Split(s, ' ')
  }

  function InWords(ws: seq<string>): string -> bool
  {
    (w: string) => w in ws
  }

  function Max(a: nat, b: nat): nat
  {
    if a < b then b else a
  }

  /** Half the share of words of the first text that also occur in the
      second, against the longer word count, or 0 when none is shared. */
  function WordOverlap(s1: string, s2: string): (r: real)
    ensures 0.0 <= r <= 0.5
    ensures r > 0.0 <==> exists k :: 0 <= k < |WordsOf(s1)| && WordsOf(s1)[k] in WordsOf(s2)
  {
    var words1 := WordsOf(s1);
    var words2 := WordsOf(s2);
    var common := Filter(words1, InWords(words2));
    FilterEmpty(words1, InWords(words2));
    if |common| > 0 then HalfShare(|common|, Max(|words1|, |words2|)) else 0.0
  }

  /** `0.5 * (common / total)`. */
  function HalfShare(common: nat, total: nat): (r: real)
    requires 0 < common <= total
    ensures 0.0 < r <= 0.5
  {
    var q := common as real / total as real;
    assert q <= 1.0 by {
      assert q * total as real == common as real;
    }
    0.5 * q
  }

  /** The score of a name against a query: 1 for equal normalised texts, 0.8
      when one contains the other, and at most 0.5 from shared words
      otherwise; the 0.7 branch for a common prefix is never taken, as a
      prefix is contained. */
  function SimilarityScore(str1: string, str2: string): (r: real)
    ensures 0.0 <= r <= 1.0
    ensures var s1 := NormalizeString(str1); var s2 := NormalizeString(str2);
            && (r == 1.0 <==> s1 == s2)
            && (r == 0.8 <==> s1 != s2 && (Contains(s1, s2) || Contains(s2, s1)))
            && (s1 != s2 && !Contains(s1, s2) && !Contains(s2, s1) ==> r == WordOverlap(s1, s2))
  {
    var s1 := NormalizeString(str1);
    var s2 := NormalizeString(str2);
    if s1 == s2 then 1.0
    else if Contains(s1, s2) || Contains(s2, s1) then 0.8
    else if StartsWith(s1, s2) || StartsWith(s2, s1) then
      PrefixContained(s1, s2);
      assert false;
      0.7
    else WordOverlap(s1, s2)
  }

  lemma PrefixContained(s1: string, s2: string)
    requires StartsWith(s1, s2) || StartsWith(s2, s1)
    ensures Contains(s1, s2) || Contains(s2, s1)
  {
    if StartsWith(s1, s2) {
      StartsWithContains(s1, s2);
    } else {
      StartsWithContains(s2, s1);
    }
  }

  /** The score ignores ASCII letter case in the query. */
  lemma SimilarityIgnoresCase(query: string, name: string)
    ensures SimilarityScore(Lower(query), name) == SimilarityScore(query, name)
  {
    NormalizeIgnoresCase(query);
  }

  /** A query that normalises to nothing (punctuation only, say) is contained
      in every name and so scores at least 0.8 against all of them. */
  lemma EmptyNormalizedQueryMatchesAll(query: string, name: string)
    requires NormalizeString(query) == ""
    ensures SimilarityScore(query, name) >= 0.8
  {
    ContainsEmpty(NormalizeString(name));
  }

  // ---------------------------------------------------------------- scoring a drug

  /** The names searched for a drug, in the order the search visits them. */
  function Names(d: DrugInstruction): seq<string>
  {
    [d.name, d.nameAr] + d.aliases + d.aliasesAr
  }

  /** A scoring of a query against a name. */
  type Scorer = (string, string) -> real

  /** The best score of the query against the names, 0 for no names. */
  function MaxScore(score: Scorer, query: string, names: seq<string>): (r: real)
    ensures 0.0 <= r
    ensures forall k :: 0 <= k < |names| ==> score(query, names[k]) <= r
    ensures r == 0.0 || exists k :: 0 <= k < |names| && r == score(query, names[k])
  {
    if names == [] then 0.0
    else
      var m := MaxScore(score, query, names[..|names| - 1]);
      var s := score(query, names[|names| - 1]);
      assert forall k :: 0 <= k < |names| - 1 ==> names[k] == names[..|names| - 1][k];
      if s > m then s else m
  }

  function DrugScore(score: Scorer, query: string, d: DrugInstruction): (r: real)
    ensures 0.0 <= r
  {
    MaxScore(score, query, Names(d))
  }

  /** The best drug score over the database, 0 for an empty one. */
  function BestScore(score: Scorer, query: string, db: seq<DrugInstruction>): (r: real)
    ensures 0.0 <= r
    ensures forall k :: 0 <= k < |db| ==> DrugScore(score, query, db[k]) <= r
    ensures r == 0.0 || exists k :: 0 <= k < |db| && r == DrugScore(score, query, db[k])
  {
    if db == [] then 0.0
    else
      var m := BestScore(score, query, db[..|db| - 1]);
      var s := DrugScore(score, query, db[|db| - 1]);
      assert forall k :: 0 <= k < |db| - 1 ==> db[k] == db[..|db| - 1][k];
      if s > m then s else m
  }

  /** Index i holds the first drug reaching the best score. */
  predicate IsFirstBest(score: Scorer, query: string, db: seq<DrugInstruction>, i: int)
  {
    && 0 <= i < |db|
    && DrugScore(score, query, db[i]) == BestScore(score, query, db)
    && forall j :: 0 <= j < i ==> DrugScore(score, query, db[j]) < BestScore(score, query, db)
  }

  /** Under the similarity score no drug, and so no database, scores above 1. */
  lemma {:induction false} BestScoreAtMostOne(query: string, db: seq<DrugInstruction>)
    ensures BestScore(SimilarityScore, query, db) <= 1.0
  {
    var b := BestScore(SimilarityScore, query, db);
    if b != 0.0 {
      var k :| 0 <= k < |db| && b == DrugScore(SimilarityScore, query, db[k]);
      var names := Names(db[k]);
      var m := MaxScore(SimilarityScore, query, names);
      if m != 0.0 {
        var j :| 0 <= j < |names| && m == SimilarityScore(query, names[j]);
      }
    }
  }

  /** A name whose normalisation equals the query's gives its drug, and so
      the database, the full score. */
  lemma ExactNameScoresOne(query: string, db: seq<DrugInstruction>, i: int, n: nat)
    requires 0 <= i < |db| && n < |Names(db[i])|
    requires NormalizeString(Names(db[i])[n]) == NormalizeString(query)
    ensures BestScore(SimilarityScore, query, db) == 1.0
  {
    assert SimilarityScore(query, Names(db[i])[n]) == 1.0;
    NameBelowBest(SimilarityScore, query, db, i, n);
    BestScoreAtMostOne(query, db);
  }

  /** No name of a drug scores above the best score of the database. */
  lemma NameBelowBest(score: Scorer, query: string, db: seq<DrugInstruction>, i: int, n: nat)
    requires 0 <= i < |db| && n < |Names(db[i])|
    ensures score(query, Names(db[i])[n]) <= BestScore(score, query, db)
  {
    assert score(query, Names(db[i])[n]) <= DrugScore(score, query, db[i]);
  }

  // ---------------------------------------------------------------- best match

  /** `searchDrug`: null for a query shorter than two characters; otherwise
      the first drug reaching the best similarity over all its names, when
      that score is at least 0.5, and null when it is lower. */
  method SearchDrug(db: seq<DrugInstruction>, query: string) returns (r: Option<DrugInstruction>)
    ensures |query| < 2 ==> r == None
    ensures |query| >= 2 ==> (r.Some? <==> BestScore(SimilarityScore, query, db) >= 0.5)
    ensures r.Some? ==> exists i :: IsFirstBest(SimilarityScore, query, db, i) && r.value == db[i]
  {
    r := SearchDrugBy(SimilarityScore, db, query);
  }

  /** The search of `searchDrug` over a given scoring of names. */
  method SearchDrugBy(score: Scorer, db: seq<DrugInstruction>, query: string) returns (r: Option<DrugInstruction>)
    ensures |query| < 2 ==> r == None
    ensures |query| >= 2 ==> (r.Some? <==> BestScore(score, query, db) >= 0.5)
    ensures r.Some? ==> exists i :: IsFirstBest(score, query, db, i) && r.value == db[i]
  {
    if |query| < 2 {
      return None;
    }
    var bestMatch: Option<DrugInstruction> := None;
    var bestScore: real := 0.0;
    ghost var bestIndex := -1;
    for i := 0 to |db|
      invariant bestScore == BestScore(score, query, db[..i])
      invariant bestMatch.None? <==> bestScore == 0.0
      invariant -1 <= bestIndex < i
      invariant bestMatch.Some? ==> 0 <= bestIndex && bestMatch.value == db[bestIndex]
      invariant bestMatch.Some? ==> DrugScore(score, query, db[bestIndex]) == bestScore
      invariant forall j :: 0 <= j < bestIndex ==> DrugScore(score, query, db[j]) < bestScore
    {
      var drug := db[i];
      var before := bestScore;
      bestScore, bestMatch := OfferNames(score, query, drug, bestScore, bestMatch);
      if bestScore > before {
        forall j | 0 <= j < i
          ensures DrugScore(score, query, db[j]) < bestScore
        {
          assert db[j] == db[..i][j];
        }
        bestIndex := i;
      }
      BestScoreSnoc(score, query, db, i);
    }
    assert db[..|db|] == db;
    if bestScore >= 0.5 {
      assert IsFirstBest(score, query, db, bestIndex);
      r := bestMatch;
    } else {
      r := None;
    }
  }

  /** The inner loop of `searchDrug` over one drug's names: a name scoring
      strictly higher than the best so far makes this drug the best match. */
  method OfferNames(score: Scorer, query: string, drug: DrugInstruction, bestScore: real, bestMatch: Option<DrugInstruction>)
    returns (newScore: real, newMatch: Option<DrugInstruction>)
    requires 0.0 <= bestScore
    ensures var m := DrugScore(score, query, drug);
            if m > bestScore then newScore == m && newMatch == Some(drug)
            else newScore == bestScore && newMatch == bestMatch
  {
    var names := Names(drug);
    newScore, newMatch := bestScore, bestMatch;
    for j := 0 to |names|
      invariant var m := MaxScore(score, query, names[..j]);
                if m > bestScore then newScore == m && newMatch == Some(drug)
                else newScore == bestScore && newMatch == bestMatch
    {
      var s := score(query, names[j]);
      if s > newScore {
        newScore, newMatch := s, Some(drug);
      }
      assert names[..j + 1][..j] == names[..j];
    }
    assert names[..|names|] == names;
  }

  lemma BestScoreSnoc(score: Scorer, query: string, db: seq<DrugInstruction>, i: int)
    requires 0 <= i < |db|
    ensures var m := BestScore(score, query, db[..i]); var s := DrugScore(score, query, db[i]);
            BestScore(score, query, db[..i + 1]) == if s > m then s else m
  {
    assert db[..i + 1][..i] == db[..i];
  }

  // ---------------------------------------------------------------- ranked matches

  datatype Scored = Scored(drug: DrugInstruction, score: real)

  /** The drugs scoring at least 0.3, with their scores, in database order. */
  function Candidates(score: Scorer, query: string, db: seq<DrugInstruction>): (r: seq<Scored>)
    ensures |r| <= |db|
    ensures forall k :: 0 <= k < |r| ==>
              r[k].drug in db && r[k].score == DrugScore(score, query, r[k].drug) && r[k].score >= 0.3
    ensures forall k :: 0 <= k < |db| && DrugScore(score, query, db[k]) >= 0.3 ==>
              Scored(db[k], DrugScore(score, query, db[k])) in r
  {
    if db == [] then []
    else
      var init := db[..|db| - 1];
      var d := db[|db| - 1];
      var s := DrugScore(score, query, d);
      assert forall k :: 0 <= k < |db| - 1 ==> db[k] == init[k];
      Candidates(score, query, init) + (if s >= 0.3 then [Scored(d, s)] else [])
  }

  /** Higher scores first; the comparator `b.score - a.score`. */
  predicate ScoreDescending(a: Scored, b: Scored) { a.score >= b.score }

  lemma ScoreDescendingIsTotalPreorder()
    ensures TotalPreorder(ScoreDescending)
  {
  }

  function DrugOf(s: Scored): DrugInstruction { s.drug }

  /** The candidates ranked by score, highest first and ties in database
      order. */
  function Ranked(score: Scorer, query: string, db: seq<DrugInstruction>): seq<Scored>
  {
    SortBy(Candidates(score, query, db), ScoreDescending)
  }

  /** The ranked drugs cut to the first `limit` (a negative limit counting
      from the back, as `slice` does). */
  function TopMatches(score: Scorer, query: string, db: seq<DrugInstruction>, limit: int): seq<DrugInstruction>
  {
    Map(SliceTo(Ranked(score, query, db), limit), DrugOf)
  }

  /** `searchDrugs`: nothing for a short query, otherwise the top matches
      under the similarity score. */
  method SearchDrugs(db: seq<DrugInstruction>, query: string, limit: int) returns (r: seq<DrugInstruction>)
    ensures |query| < 2 ==> r == []
    ensures |query| >= 2 ==> r == TopMatches(SimilarityScore, query, db, limit)
  {
    r := SearchDrugsBy(SimilarityScore, db, query, limit);
  }

  /** The search of `searchDrugs` over a given scoring of names. */
  method SearchDrugsBy(score: Scorer, db: seq<DrugInstruction>, query: string, limit: int) returns (r: seq<DrugInstruction>)
    ensures |query| < 2 ==> r == []
    ensures |query| >= 2 ==> r == TopMatches(score, query, db, limit)
  {
    if |query| < 2 {
      return [];
    }
    var results: seq<Scored> := [];
    for i := 0 to |db|
      invariant results == Candidates(score, query, db[..i])
    {
      var drug := db[i];
      var maxScore := NamesMaxScore(score, query, Names(drug));
      if maxScore >= 0.3 {
        results := results + [Scored(drug, maxScore)];
      }
      assert db[..i + 1][..i] == db[..i];
    }
    assert db[..|db|] == db;
    var sorted := SortBy(results, ScoreDescending);
    r := Map(SliceTo(sorted, limit), DrugOf);
  }

  /** The inner loop of `searchDrugs`: the best score over the names. */
  method NamesMaxScore(score: Scorer, query: string, names: seq<string>) returns (maxScore: real)
    ensures maxScore == MaxScore(score, query, names)
  {
    maxScore := 0.0;
    for j := 0 to |names|
      invariant maxScore == MaxScore(score, query, names[..j])
    {
      var s := score(query, names[j]);
      if s > maxScore {
        maxScore := s;
      }
      assert names[..j + 1][..j] == names[..j];
    }
    assert names[..|names|] == names;
  }

  /** The ranked list holds exactly the candidates, highest score first. */
  lemma RankedOrder(score: Scorer, query: string, db: seq<DrugInstruction>)
    ensures var r := Ranked(score, query, db);
            && multiset(r) == multiset(Candidates(score, query, db))
            && forall i, j :: 0 <= i < j < |r| ==> r[i].score >= r[j].score
  {
    ScoreDescendingIsTotalPreorder();
    SortBySorted(Candidates(score, query, db), ScoreDescending);
  }

  /** Every match is a drug of the database scoring at least 0.3, the
      matches come highest score first, there are at most `limit` of them,
      and every candidate left out scores no higher than any match. */
  lemma TopMatchesMeaning(score: Scorer, query: string, db: seq<DrugInstruction>, limit: int)
    ensures var t := TopMatches(score, query, db, limit);
            var ranked := Ranked(score, query, db);
            && (0 <= limit ==> |t| == if limit < |ranked| then limit else |ranked|)
            && (forall i :: 0 <= i < |t| ==> t[i] in db && DrugScore(score, query, t[i]) >= 0.3)
            && (forall i, j :: 0 <= i < j < |t| ==> DrugScore(score, query, t[i]) >= DrugScore(score, query, t[j]))
            && (forall i, j :: 0 <= i < |t| <= j < |ranked| ==> DrugScore(score, query, t[i]) >= ranked[j].score)
  {
    RankedOrder(score, query, db);
    var ranked := Ranked(score, query, db);
    var t := TopMatches(score, query, db, limit);
    var cut := SliceTo(ranked, limit);
    forall i | 0 <= i < |t|
      ensures t[i] == ranked[i].drug && ranked[i] in Candidates(score, query, db)
      ensures DrugScore(score, query, t[i]) == ranked[i].score
    {
      assert cut[i] == ranked[i];
      assert ranked[i] in multiset(Candidates(score, query, db));
    }
  }

  /** With no more candidates than the limit, every drug scoring at least
      0.3 is among the matches. */
  lemma TopMatchesComplete(score: Scorer, query: string, db: seq<DrugInstruction>, limit: int, k: int)
    requires 0 <= k < |db| && DrugScore(score, query, db[k]) >= 0.3
    requires |Candidates(score, query, db)| <= limit
    ensures db[k] in TopMatches(score, query, db, limit)
  {
    RankedOrder(score, query, db);
    var ranked := Ranked(score, query, db);
    var x := Scored(db[k], DrugScore(score, query, db[k]));
    assert x in multiset(ranked);
    var i :| 0 <= i < |ranked| && ranked[i] == x;
    assert SliceTo(ranked, limit) == ranked;
    assert TopMatches(score, query, db, limit)[i] == db[k];
  }

  // ---------------------------------------------------------------- lookups

  function HasId(id: string): DrugInstruction -> bool
  {
    (d: DrugInstruction) => d.id == id
  }

  /** `getDrugById`: the first drug with that id, null when there is none. */
  function GetDrugById(db: seq<DrugInstruction>, id: string): (r: Option<DrugInstruction>)
    ensures r.None? <==> forall k :: 0 <= k < |db| ==> db[k].id != id
    ensures r.Some? ==> exists i :: 0 <= i < |db| && db[i] == r.value && r.value.id == id
                                    && forall j :: 0 <= j < i ==> db[j].id != id
  {
    var i := FindIndex(db, HasId(id));
    if i == -1 then None else Some(db[i])
  }

  function InCategory(c: DrugCategory): DrugInstruction -> bool
  {
    (d: DrugInstruction) => d.category == c
  }

  /** `getDrugsByCategory`: exactly the drugs of the category, each as often
      as the database holds it. */
  function GetDrugsByCategory(db: seq<DrugInstruction>, c: DrugCategory): (r: seq<DrugInstruction>)
    ensures forall k :: 0 <= k < |r| ==> r[k] in db && r[k].category == c
    ensures forall k :: 0 <= k < |db| && db[k].category == c ==> db[k] in r
  {
    Filter(db, InCategory(c))
  }

  lemma GetDrugsByCategoryCount(db: seq<DrugInstruction>, c: DrugCategory, d: DrugInstruction)
    ensures multiset(GetDrugsByCategory(db, c))[d] == if d.category == c then multiset(db)[d] else 0
  {
    FilterMultiset(db, InCategory(c), d);
  }

  // ---------------------------------------------------------------- sample records

  const Metformin := DrugInstruction(
    "metformin", "Metformin", "ميتفورمين",
    ["glucophage", "fortamet", "glumetza", "riomet", "glycomet"],
    ["جلوكوفاج", "فورتاميت", "جليكوميت"],
    Diabetes, TimingWithFood, Some(["500mg", "850mg", "1000mg"]))

  const Glibenclamide := DrugInstruction(
    "glibenclamide", "Glibenclamide", "غليبنكلاميد",
    ["glyburide", "daonil", "euglucon", "diabeta", "glynase"],
    ["داونيل", "يوجلوكون", "ديابيتا"],
    Diabetes, TimingBeforeMeal, Some(["2.5mg", "5mg"]))

  const Amlodipine := DrugInstruction(
    "amlodipine", "Amlodipine", "أملوديبين",
    ["norvasc", "amlor", "istin"],
    ["نورفاسك", "أملور", "إستين"],
    Hypertension, TimingAny, Some(["2.5mg", "5mg", "10mg"]))

  const SampleDatabase: seq<DrugInstruction> := [Metformin, Glibenclamide, Amlodipine]

  lemma SampleLookups()
    ensures GetDrugById(SampleDatabase, "amlodipine") == Some(Amlodipine)
    ensures GetDrugById(SampleDatabase, "insulin") == None
    ensures GetDrugsByCategory(SampleDatabase, Diabetes) == [Metformin, Glibenclamide]
  {
    var db := SampleDatabase;
    assert db[1..] == [Glibenclamide, Amlodipine] && db[1..][1..] == [Amlodipine];
    assert Amlodipine.id != "metformin" && Metformin.id != "amlodipine" && Glibenclamide.id != "amlodipine";
    assert FindIndex(db[1..][1..], HasId("amlodipine")) == 0;
    assert FindIndex(db[1..][1..][1..], HasId("insulin")) == -1;
    assert Amlodipine.category != Diabetes;
    assert Filter(db[1..][1..], InCategory(Diabetes)) == [] + Filter(db[1..][1..][1..], InCategory(Diabetes));
    assert Filter(db[1..], InCategory(Diabetes)) == [Glibenclamide] + Filter(db[1..][1..], InCategory(Diabetes));
  }
}
