/** Question generation: the Fisher-Yates shuffle, the choice of distractors, and the three
    rounds of a challenge. Random numbers are arbitrary choices within their bounds. */
module Questions {
  import opened Lists
  import opened Options

  // ---------------------------------------------------------------- the shuffle

  function Swap<T>(s: seq<T>, i: nat, j: nat): (r: seq<T>)
    requires i < |s| && j < |s|
    ensures |r| == |s|
  {
    s[i := s[j]][j := s[i]]
  }

  /** Draws for positions i, i - 1, ... : the draw for a position is at most that position. */
  ghost predicate Draws(i: nat, d: seq<nat>) {
    |d| <= i && forall k :: 0 <= k < |d| ==> d[k] <= i - k
  }

  /** The swaps of the loop from position i downward. */
  ghost function Shuffled<T>(s: seq<T>, i: nat, d: seq<nat>): (r: seq<T>)
    requires Draws(i, d) && (d != [] ==> i < |s|)
    ensures |r| == |s|
    decreases |d|
  {
    if d == [] then s else
    assert forall k :: 0 <= k < |d[1..]| ==> d[1..][k] == d[k + 1];
    Shuffled(Swap(s, i, d[0]), i - 1, d[1..])
  }

  function LastIndex<T>(s: seq<T>): nat {
    if s == [] then 0 else |s| - 1
  }

  method Shuffle<T>(items: seq<T>) returns (shuffled: seq<T>, draws: seq<nat>)
    ensures Draws(LastIndex(items), draws) && |draws| == LastIndex(items)
    ensures shuffled == Shuffled(items, LastIndex(items), draws)
    ensures multiset(shuffled) == multiset(items)
  {
    draws := [];
    shuffled := items;
    if items == [] {
      return;
    }
    var arr := new T[|items|](k requires 0 <= k < |items| => items[k]);
    assert arr[..] == items;
    var i := arr.Length - 1;
    while i > 0
      invariant 0 <= i < arr.Length == |items| && |draws| == |items| - 1 - i
      invariant Draws(|items| - 1, draws) && arr[..] == Shuffled(items, |items| - 1, draws)
    {
      var j: nat :| j <= i;
      ShuffledAppend(items, |items| - 1, draws, j);
      arr[i], arr[j] := arr[j], arr[i];
      draws := draws + [j];
      i := i - 1;
    }
    shuffled := arr[..];
    ShuffleKeepsElements(items, |items| - 1, draws);
  }

  lemma {:induction false} ShuffledAppend<T>(s: seq<T>, i: nat, d: seq<nat>, j: nat)
    requires i < |s| && Draws(i, d) && |d| < i && j <= i - |d|
    ensures Draws(i, d + [j])
    ensures Shuffled(s, i, d + [j]) == Swap(Shuffled(s, i, d), i - |d|, j)
    decreases |d|
  {
    if d == [] {
      assert d + [j] == [j] && [j][1..] == [];
    } else {
      assert forall k :: 0 <= k < |d[1..]| ==> d[1..][k] == d[k + 1];
      assert (d + [j])[1..] == d[1..] + [j] && (d + [j])[0] == d[0];
      ShuffledAppend(Swap(s, i, d[0]), i - 1, d[1..], j);
    }
  }

  lemma {:induction false} SwapKeepsElements<T>(s: seq<T>, i: nat, j: nat)
    requires i < |s| && j < |s|
    ensures multiset(Swap(s, i, j)) == multiset(s)
    ensures Distinct(s) ==> Distinct(Swap(s, i, j))
  {
  }

  lemma {:induction false} ShuffleKeepsElements<T>(s: seq<T>, i: nat, d: seq<nat>)
    requires Draws(i, d) && (d != [] ==> i < |s|)
    ensures multiset(Shuffled(s, i, d)) == multiset(s)
    ensures forall k :: i < k < |s| ==> Shuffled(s, i, d)[k] == s[k]
    decreases |d|
  {
    if d != [] {
      assert forall k :: 0 <= k < |d[1..]| ==> d[1..][k] == d[k + 1];
      SwapKeepsElements(s, i, d[0]);
      ShuffleKeepsElements(Swap(s, i, d[0]), i - 1, d[1..]);
    }
  }

  /** The first draw decides what ends up at its position. */
  lemma {:induction false} FirstDrawDecides<T>(s: seq<T>, i: nat, d: seq<nat>)
    requires Draws(i, d) && d != [] && i < |s|
    ensures Draws(i - 1, d[1..])
    ensures Shuffled(s, i, d)[i] == s[d[0]]
  {
    assert forall k :: 0 <= k < |d[1..]| ==> d[1..][k] == d[k + 1];
    ShuffleKeepsElements(Swap(s, i, d[0]), i - 1, d[1..]);
  }

  /** Different draws give different arrangements. */
  lemma {:induction false} DrawsAreUnique<T>(s: seq<T>, i: nat, d: seq<nat>, e: seq<nat>)
    requires Distinct(s) && (i > 0 ==> i < |s|) && Draws(i, d) && Draws(i, e) && |d| == |e| == i
    requires Shuffled(s, i, d) == Shuffled(s, i, e)
    ensures d == e
    decreases i
  {
    if i > 0 {
      FirstDrawDecides(s, i, d);
      FirstDrawDecides(s, i, e);
      assert d[0] == e[0];
      SwapKeepsElements(s, i, d[0]);
      DrawsAreUnique(Swap(s, i, d[0]), i - 1, d[1..], e[1..]);
      assert d == [d[0]] + d[1..] && e == [e[0]] + e[1..];
    }
  }

  lemma {:induction false} PermutationMembers<T>(s: seq<T>, p: seq<T>, k: nat) returns (j: nat)
    requires multiset(s) == multiset(p) && k < |p|
    ensures |s| == |p| && j < |s| && s[j] == p[k]
  {
    assert |multiset(s)| == |s| && |multiset(p)| == |p|;
    assert p[k] in multiset(s);
    var i :| 0 <= i < |s| && s[i] == p[k];
    j := i;
  }

  lemma {:induction false} OnlyHeadLeft<T>(s: seq<T>, p: seq<T>)
    requires 0 < |s| == |p| && multiset(s) == multiset(p)
    requires forall k :: 0 < k < |s| ==> p[k] == s[k]
    ensures s == p
  {
    var rest := s[1..];
    assert s == [s[0]] + rest && p == [p[0]] + rest;
    assert multiset(s) == multiset{s[0]} + multiset(rest) && multiset(p) == multiset{p[0]} + multiset(rest);
    assert multiset{s[0]} == multiset(s) - multiset(rest) == multiset{p[0]};
    assert s[0] in multiset{p[0]};
  }

  lemma {:induction false} SameItem<T>(s: seq<T>, i: nat, p: seq<T>, j: nat)
    requires Distinct(p) && i < |s| == |p| && j < |s| && s[j] == p[i]
    requires forall k :: i < k < |s| ==> p[k] == s[k]
    ensures j <= i
  {
  }

  /** Every arrangement that agrees with `s` above position i comes from some draws. */
  lemma {:induction false} DrawsExist<T>(s: seq<T>, i: nat, p: seq<T>) returns (d: seq<nat>)
    requires Distinct(p) && i < |s| == |p| && multiset(s) == multiset(p)
    requires forall k :: i < k < |s| ==> p[k] == s[k]
    ensures Draws(i, d) && |d| == i && Shuffled(s, i, d) == p
    decreases i
  {
    if i == 0 {
      d := [];
      OnlyHeadLeft(s, p);
    } else {
      var j := PermutationMembers(s, p, i);
      SameItem(s, i, p, j);
      var t := Swap(s, i, j);
      SwapKeepsElements(s, i, j);
      assert forall k :: i - 1 < k < |t| ==> p[k] == t[k];
      var rest := DrawsExist(t, i - 1, p);
      d := [j] + rest;
      assert d[1..] == rest;
    }
  }

  /** Fisher-Yates is a bijection: of the arrangements of distinct items, each arises from
      exactly one vector of draws. */
  lemma {:induction false} ShuffleIsBijective<T>(items: seq<T>, p: seq<T>) returns (d: seq<nat>)
    requires Distinct(items) && Distinct(p) && multiset(items) == multiset(p)
    ensures Draws(LastIndex(items), d) && |d| == LastIndex(items)
    ensures Shuffled(items, LastIndex(items), d) == p
    ensures forall e ::
              (Draws(LastIndex(items), e) && |e| == LastIndex(items) && Shuffled(items, LastIndex(items), e) == p)
              ==> e == d
  {
    assert |multiset(items)| == |items| && |multiset(p)| == |p|;
    if items == [] {
      d := [];
    } else {
      d := DrawsExist(items, |items| - 1, p);
    }
    forall e | Draws(LastIndex(items), e) && |e| == LastIndex(items)
               && Shuffled(items, LastIndex(items), e) == p
      ensures e == d
    {
      DrawsAreUnique(items, LastIndex(items), e, d);
    }
  }

  // ---------------------------------------------------------------- distractors

  const DISTRACTORS: nat := 3

  function Fallback(k: nat): string {
    if k == 0 then "Option A" else if k == 1 then "Option B" else if k == 2 then "Option C" else "Option D"
  }

  function Differs(answer: string): string -> bool {
    x => x != answer
  }

  /** The candidates that are not the answer itself. */
  function Others(pool: seq<string>, answer: string): seq<string> {
    Keep(Differs(answer), pool)
  }

  /** A padding label that will be used spells the answer. */
  ghost predicate LabelClash(pool: seq<string>, answer: string) {
    exists k: nat :: |Others(pool, answer)| <= k < DISTRACTORS && Fallback(k) == answer
  }

  /** Three picks: entries of the pool other than the answer, none more often than it is there,
      and then the labels of the places left over. */
  ghost predicate Picks(picked: seq<string>, pool: seq<string>, answer: string) {
    var n := if |Others(pool, answer)| < 3 then |Others(pool, answer)| else 3;
    && |picked| == 3
    && multiset(picked[..n]) <= multiset(Others(pool, answer))
    && (forall k :: n <= k < 3 ==> picked[k] == ["Option A", "Option B", "Option C"][k])
  }

  method PickDistractors(pool: seq<string>, exclude: string) returns (result: seq<string>)
    ensures Picks(result, pool, exclude)
    ensures forall k :: 0 <= k < DISTRACTORS ==>
              if k < |Others(pool, exclude)| then result[k] in pool && result[k] != exclude
              else result[k] == Fallback(k)
    ensures exclude in result <==> LabelClash(pool, exclude)
  {
    var filtered := Filter(Differs(exclude), pool);
    var shuffled, _ := Shuffle(filtered);
    var picked := if |shuffled| <= DISTRACTORS then shuffled else shuffled[..DISTRACTORS];
    result := Pad(picked);
    PickFacts(result, picked, shuffled, pool, exclude);
  }

  lemma {:induction false} PickFacts(result: seq<string>, picked: seq<string>, shuffled: seq<string>, pool: seq<string>, answer: string)
    requires multiset(shuffled) == multiset(Others(pool, answer)) && picked <= shuffled
    requires |picked| == (if |shuffled| < 3 then |shuffled| else 3) && |result| == 3
    requires forall k :: 0 <= k < 3 ==> result[k] == if k < |picked| then picked[k] else Fallback(k)
    ensures Picks(result, pool, answer)
    ensures |picked| <= |Others(pool, answer)| && (|picked| < 3 ==> |picked| == |Others(pool, answer)|)
    ensures forall k :: 0 <= k < |picked| ==> result[k] in pool && result[k] != answer
    ensures answer in result <==> LabelClash(pool, answer)
  {
    hide Fallback, Picks, Keep, Differs;
    var others := Others(pool, answer);
    assert |multiset(shuffled)| == |shuffled| && |multiset(others)| == |others|;
    PickedFromOthers(picked, shuffled, others);
    PaddedPicks(result, picked, pool, answer);
    forall k | 0 <= k < |picked| ensures result[k] in pool && result[k] != answer {
      assert picked[k] in multiset(picked);
      assert picked[k] in multiset(others);
      OthersMembers(pool, answer, picked[k]);
    }
    ClashIff(result, |picked|, pool, answer);
  }

  lemma {:induction false} OthersMembers(pool: seq<string>, answer: string, x: string)
    requires x in Others(pool, answer)
    ensures x in pool && x != answer
  {
    KeepMembers(Differs(answer), pool, x);
  }

  lemma {:induction false} ClashIff(result: seq<string>, n: nat, pool: seq<string>, answer: string)
    requires |result| == 3 && n == if |Others(pool, answer)| < 3 then |Others(pool, answer)| else 3
    requires forall k :: 0 <= k < n ==> result[k] != answer
    requires forall k :: n <= k < 3 ==> result[k] == Fallback(k)
    ensures answer in result <==> LabelClash(pool, answer)
  {
    hide Fallback, Others;
    if answer in result {
      var k :| 0 <= k < |result| && result[k] == answer;
      assert Fallback(k) == answer;
    }
    if LabelClash(pool, answer) {
      var k: nat :| |Others(pool, answer)| <= k < DISTRACTORS && Fallback(k) == answer;
      assert result[k] == answer;
    }
  }

  lemma {:induction false} PickedFromOthers(picked: seq<string>, shuffled: seq<string>, others: seq<string>)
    requires picked <= shuffled && multiset(shuffled) == multiset(others)
    ensures multiset(picked) <= multiset(others)
  {
    assert shuffled == picked + shuffled[|picked|..];
  }

  lemma {:induction false} PaddedPicks(result: seq<string>, picked: seq<string>, pool: seq<string>, answer: string)
    requires multiset(picked) <= multiset(Others(pool, answer)) && |result| == 3
    requires |picked| == if |Others(pool, answer)| < 3 then |Others(pool, answer)| else 3
    requires forall k :: 0 <= k < 3 ==> result[k] == if k < |picked| then picked[k] else Fallback(k)
    ensures Picks(result, pool, answer)
  {
    hide Others;
    LabelsAre();
    assert result[..|picked|] == picked;
  }

  lemma {:induction false} LabelsAre()
    ensures forall k :: 0 <= k < 3 ==> Fallback(k) == ["Option A", "Option B", "Option C"][k]
  {
  }

  /** Generic labels make up for a pool that is too small. */
  method Pad(picked: seq<string>) returns (result: seq<string>)
    requires |picked| <= DISTRACTORS
    ensures |result| == DISTRACTORS
    ensures forall k :: 0 <= k < DISTRACTORS ==> result[k] == if k < |picked| then picked[k] else Fallback(k)
  {
    result := picked;
    while |result| < DISTRACTORS
      invariant |picked| <= |result| <= DISTRACTORS
      invariant forall k :: 0 <= k < |result| ==> result[k] == if k < |picked| then picked[k] else Fallback(k)
    {
      result := result + [Fallback(|result|)];
    }
  }

  // ---------------------------------------------------------------- one question

  datatype Question = Question(round: nat, correctAnswer: string, options: seq<string>, correctOption: char)

  /** `indexOf`: the first position, or None for -1. */
  function IndexOf(options: seq<string>, x: string): (r: Option<nat>)
    ensures x in options <==> r.Some?
    ensures r.Some? ==> r.value < |options| && options[r.value] == x
  {
    if options == [] then None
    else if options[0] == x then Some(0)
    else
      var rest := IndexOf(options[1..], x);
      if rest.Some? then Some(rest.value + 1) else None
  }

  function OptionLetter(index: Option<nat>): char {
    if index == Some(1) then 'B' else if index == Some(2) then 'C' else if index == Some(3) then 'D' else 'A'
  }

  function LetterIndex(c: char): nat {
    if c == 'B' then 1 else if c == 'C' then 2 else if c == 'D' then 3 else 0
  }

  /** Four options, and the stored letter names the correct answer. */
  ghost predicate Answerable(q: Question) {
    |q.options| == 4 && q.options[LetterIndex(q.correctOption)] == q.correctAnswer
  }

  /** The options are the answer and three picks from the pool, in some order. */
  ghost predicate Fair(q: Question, pool: seq<string>) {
    exists picked :: Picks(picked, pool, q.correctAnswer) && multiset(q.options) == multiset{q.correctAnswer} + multiset(picked)
  }

  method MakeQuestion(round: nat, answer: string, pool: seq<string>) returns (q: Question)
    ensures q.round == round && q.correctAnswer == answer && Answerable(q) && Fair(q, pool)
    // exactly one option is right, unless a padding label spells the answer
    ensures multiset(q.options)[answer] == 1 <==> !LabelClash(pool, answer)
  {
    var distractors := PickDistractors(pool, answer);
    var all := [answer] + distractors;
    var options, _ := Shuffle(all);
    assert |multiset(options)| == |options| && |multiset(all)| == |all|;
    assert answer in multiset(all);
    assert multiset(all)[answer] == 1 + multiset(distractors)[answer];
    q := Question(round, answer, options, OptionLetter(IndexOf(options, answer)));
    assert multiset(all) == multiset{answer} + multiset(distractors);
    assert Picks(distractors, pool, q.correctAnswer);
  }

  // ---------------------------------------------------------------- the three rounds

  /** Empty strings stand for missing values. */
  datatype Brand = Brand(name: string, tagline: string, usp: string, productImages: nat)

  /** The round numbers of the generated questions. */
  function Rounds(tagline: bool, usp: bool, product: bool): seq<nat> {
    FilledRounds(Material(tagline, usp, product))
  }

  /** One round for each kind of material the brand has. */
  function Material(tagline: bool, usp: bool, product: bool): seq<nat> {
    (if tagline then [1] else []) + (if usp then [2] else []) + (if product then [3] else [])
  }

  /** Missing rounds are appended, each numbered by its position. */
  function FilledRounds(rounds: seq<nat>): seq<nat> {
    if |rounds| == 0 then [1, 2, 3]
    else if |rounds| == 1 then rounds + [2, 3]
    else if |rounds| == 2 then rounds + [3]
    else rounds
  }

  ghost function RoundsOf(qs: seq<Question>): seq<nat> {
    seq(|qs|, i requires 0 <= i < |qs| => qs[i].round)
  }

  ghost function AnswersOf(qs: seq<Question>): seq<string> {
    seq(|qs|, i requires 0 <= i < |qs| => qs[i].correctAnswer)
  }

  /** What n questions ask for: the tagline first if there is one, and the name otherwise. */
  ghost function AnswersFor(brand: Brand, n: nat): seq<string> {
    seq(n, i => if i == 0 && brand.tagline != "" then brand.tagline else brand.name)
  }

  ghost predicate AllGood(brand: Brand, qs: seq<Question>) {
    forall i :: 0 <= i < |qs| ==> Answerable(qs[i]) && qs[i].correctAnswer in {brand.name, brand.tagline}
  }

  predicate IsFilled(s: string) { s != "" }

  /** `filter(Boolean)`. */
  function NonEmpty(texts: seq<string>): seq<string> {
    Keep(IsFilled, texts)
  }

  function NamesOf(pool: seq<Brand>): seq<string> {
    seq(|pool|, i requires 0 <= i < |pool| => pool[i].name)
  }

  function TaglinesOf(pool: seq<Brand>): seq<string> {
    seq(|pool|, i requires 0 <= i < |pool| => pool[i].tagline)
  }

  /** What question i draws its wrong options from: other taglines for the tagline, other names
      for the name, empty ones left out unless the question only fills up the three. */
  function PoolFor(brand: Brand, pool: seq<Brand>, i: nat): seq<string> {
    if i == 0 && brand.tagline != "" then NonEmpty(TaglinesOf(pool))
    else if i < |Material(brand.tagline != "", brand.usp != "", brand.productImages > 0)| then NonEmpty(NamesOf(pool))
    else NamesOf(pool)
  }

  /** `questions.push(...)` for one round. */
  method Ask(brand: Brand, qs: seq<Question>, round: nat, answer: string, pool: seq<string>)
    returns (more: seq<Question>)
    requires AllGood(brand, qs) && answer in {brand.name, brand.tagline}
    ensures |more| == |qs| + 1 && AllGood(brand, more) && RoundsOf(more) == RoundsOf(qs) + [round]
    ensures AnswersOf(more) == AnswersOf(qs) + [answer]
    ensures qs <= more && Fair(more[|qs|], pool)
  {
    var q := MakeQuestion(round, answer, pool);
    more := qs + [q];
  }

  method AskMaterial(brand: Brand, names: seq<string>, taglines: seq<string>) returns (qs: seq<Question>)
    ensures |qs| <= 3 && AllGood(brand, qs) && AnswersOf(qs) == AnswersFor(brand, |qs|)
    ensures forall i :: 0 <= i < |qs| ==>
              Fair(qs[i], NonEmpty(if i == 0 && brand.tagline != "" then taglines else names))
    ensures brand.tagline != "" ==> qs != []
    ensures RoundsOf(qs) == Material(brand.tagline != "", brand.usp != "", brand.productImages > 0)
  {
    hide Fair, Answerable, Keep;
    var filledNames := Filter(IsFilled, names);
    qs := [];
    if brand.tagline != "" {
      var filledTaglines := Filter(IsFilled, taglines);
      qs := Ask(brand, qs, 1, brand.tagline, filledTaglines);
    }
    if brand.usp != "" {
      qs := Ask(brand, qs, 2, brand.name, filledNames);
    }
    if brand.productImages > 0 {
      qs := Ask(brand, qs, 3, brand.name, filledNames);
    }
  }

  method GenerateChallengeQuestions(brand: Brand, pool: seq<Brand>) returns (qs: seq<Question>)
    ensures |qs| == 3 && AllGood(brand, qs) && AnswersOf(qs) == AnswersFor(brand, 3)
    ensures forall i :: 0 <= i < 3 ==> Fair(qs[i], PoolFor(brand, pool, i))
    ensures RoundsOf(qs) == Rounds(brand.tagline != "", brand.usp != "", brand.productImages > 0)
  {
    hide Fair, Answerable, NonEmpty, NamesOf, TaglinesOf, Picks, FilledRounds;
    var names := NamesOf(pool);
    qs := AskMaterial(brand, names, TaglinesOf(pool));
    ghost var asked := RoundsOf(qs);
    ghost var material := |qs|;
    assert material == |asked| == |Material(brand.tagline != "", brand.usp != "", brand.productImages > 0)|;
    while |qs| < 3
      invariant |qs| <= 3 && AllGood(brand, qs) && AnswersOf(qs) == AnswersFor(brand, |qs|)
      invariant brand.tagline != "" ==> qs != []
      invariant material <= |qs| && forall i :: 0 <= i < |qs| ==> Fair(qs[i], PoolFor(brand, pool, i))
      invariant FilledRounds(RoundsOf(qs)) == FilledRounds(asked)
    {
      ghost var before := RoundsOf(qs);
      qs := Ask(brand, qs, |qs| + 1, brand.name, names);
      FillOne(before);
    }
    NoneMissing(RoundsOf(qs));
  }

  lemma {:induction false} NoneMissing(rounds: seq<nat>)
    requires |rounds| == 3
    ensures FilledRounds(rounds) == rounds
  {
  }

  lemma {:induction false} FillOne(rounds: seq<nat>)
    requires |rounds| < 3
    ensures FilledRounds(rounds + [|rounds| + 1]) == FilledRounds(rounds)
  {
    var next := rounds + [|rounds| + 1];
    assert |rounds| == 0 ==> next + [2, 3] == [1, 2, 3];
    assert |rounds| == 1 ==> next + [3] == rounds + [2, 3];
  }

  /** The rounds are 1, 2, 3 exactly when no later kind of material is there without the
      earlier ones; otherwise a round number repeats. */
  lemma {:induction false} RoundsAreInOrderIff(tagline: bool, usp: bool, product: bool)
    ensures Rounds(tagline, usp, product) == [1, 2, 3] <==> (product ==> usp) && (usp ==> tagline)
    ensures Distinct(Rounds(tagline, usp, product)) <==> (product ==> usp) && (usp ==> tagline)
  {
    var rounds := Rounds(tagline, usp, product);
    assert |rounds| == 3;
    if (product ==> usp) && (usp ==> tagline) {
      assert rounds == [1, 2, 3];
    } else {
      assert rounds[0] == rounds[2] || rounds[1] == rounds[2] || rounds[0] == rounds[1];
    }
  }

  // ---------------------------------------------------------------- the preview

  datatype Preview = Preview(options: seq<string>, correctIndex: Option<nat>)

  predicate Shows(preview: Preview, q: Question) {
    && preview.options == q.options && preview.correctIndex.Some?
    && preview.correctIndex.value < |q.options| == 4
    && q.options[preview.correctIndex.value] == q.correctAnswer
  }

  /** `generateQuestionPreview`: it cycles through three generated rounds, and the index it
      gives always points at the answer. */
  method PreviewQuestions(brand: Brand, pool: seq<Brand>, count: nat)
    returns (previews: seq<Preview>, ghost rounds: seq<Question>)
    ensures |rounds| == 3 && AllGood(brand, rounds) && AnswersOf(rounds) == AnswersFor(brand, 3)
    ensures RoundsOf(rounds) == Rounds(brand.tagline != "", brand.usp != "", brand.productImages > 0)
    ensures |previews| == count
    ensures forall i :: 0 <= i < count ==>
              && Shows(previews[i], rounds[i % 3])
              && previews[i].options[previews[i].correctIndex.value] in {brand.name, brand.tagline}
  {
    var generated := GenerateChallengeQuestions(brand, pool);
    rounds := generated;
    previews := [];
    for i := 0 to count
      invariant |previews| == i
      invariant forall k :: 0 <= k < i ==> Shows(previews[k], rounds[k % 3])
    {
      var round := generated[i % 3];
      assert Answerable(round);
      previews := previews + [Preview(round.options, IndexOf(round.options, round.correctAnswer))];
    }
    forall i | 0 <= i < count
      ensures Shows(previews[i], rounds[i % 3])
      ensures previews[i].options[previews[i].correctIndex.value] in {brand.name, brand.tagline}
    {
      assert rounds[i % 3].correctAnswer in {brand.name, brand.tagline};
    }
  }
}
