/**
 * The question workshop: building a submission (answer ids split on commas,
 * normalised and de-duplicated), inserting it into the category-ordered
 * review list, and accepting or rejecting submissions named by a list of
 * index numbers and ranges.
 */
module Workshop {
  import opened TriviaTypes
  import opened TriviaStore

  // ---------------------------------------------------------------------
  // Strings

  /** String splitting on one separator character: the pieces between separators, empty ones included. */
  function SplitOn(s: string, c: char): (parts: seq<string>)
    ensures |parts| >= 1
    ensures forall k :: 0 <= k < |parts| ==> c !in parts[k]
  {
    if c !in s then [s]
    else
      var i := Find(s, c);
      [s[..i]] + SplitOn(s[i + 1..], c)
  }

  /** The position of the first `c` in `s`. */
  function Find(s: string, c: char): (i: nat)
    requires c in s
    ensures i < |s| && s[i] == c && c !in s[..i]
    ensures forall k :: 0 <= k < |s| && s[k] == c ==> i <= k
  {
    if s[0] == c then 0
    else
      assert c in s[1..] by {
        var k :| 0 <= k < |s| && s[k] == c;
        assert s[1..][k - 1] == c;
      }
      var i := 1 + Find(s[1..], c);
      assert s[..i] == [s[0]] + s[1..][..i - 1];
      i
  }

  /** The pieces joined back with the separator between them. */
  function Join(parts: seq<string>, c: char): string
    requires |parts| >= 1
  {
    if |parts| == 1 then parts[0] else parts[0] + [c] + Join(parts[1..], c)
  }

  /** Splitting and joining again gives back the string. */
  lemma {:induction false} JoinSplit(s: string, c: char)
    ensures Join(SplitOn(s, c), c) == s
    decreases |s|
  {
    if c in s {
      var i := Find(s, c);
      JoinSplit(s[i + 1..], c);
      assert s == s[..i] + [c] + s[i + 1..];
    }
  }

  /** Joining pieces free of the separator and splitting again gives back the pieces. */
  lemma {:induction false} SplitJoin(parts: seq<string>, c: char)
    requires |parts| >= 1
    requires forall k :: 0 <= k < |parts| ==> c !in parts[k]
    ensures SplitOn(Join(parts, c), c) == parts
    decreases |parts|
  {
    if |parts| > 1 {
      var s := Join(parts, c);
      assert s == parts[0] + [c] + Join(parts[1..], c);
      assert s[|parts[0]|] == c;
      FindAfter(s, c, parts[0]);
      assert s[|parts[0]| + 1..] == Join(parts[1..], c);
      SplitJoin(parts[1..], c);
    }
  }

  /** A separator right after a separator-free prefix is the first one. */
  lemma {:induction false} FindAfter(s: string, c: char, prefix: string)
    requires |prefix| < |s| && s[..|prefix|] == prefix && c !in prefix && s[|prefix|] == c
    ensures c in s && Find(s, c) == |prefix|
  {
    forall k | 0 <= k < |prefix| ensures s[k] != c {
      assert s[k] == prefix[k];
    }
  }

  /** The white space trimmed from both ends of a string (ASCII white space only). */
  predicate IsSpace(ch: char) {
    ch == ' ' || ch == '\t' || ch == '\n' || ch == '\r' || ch == '\U{000B}' || ch == '\U{000C}'
  }

  function TrimStart(s: string): (t: string)
    ensures |t| <= |s| && t == s[|s| - |t|..]
    ensures t == [] || !IsSpace(t[0])
    ensures forall k :: 0 <= k < |s| - |t| ==> IsSpace(s[k])
  {
    if s != [] && IsSpace(s[0]) then
      var t := TrimStart(s[1..]);
      assert forall k :: 1 <= k < |s| - |t| ==> s[k] == s[1..][k - 1];
      t
    else s
  }

  function TrimEnd(s: string): (t: string)
    ensures |t| <= |s| && t == s[..|t|]
    ensures t == [] || !IsSpace(t[|t| - 1])
    ensures forall k :: |t| <= k < |s| ==> IsSpace(s[k])
  {
    if s != [] && IsSpace(s[|s| - 1]) then TrimEnd(s[..|s| - 1]) else s
  }

  function Trim(s: string): (t: string)
    ensures |t| <= |s|
    ensures t == [] || (!IsSpace(t[0]) && !IsSpace(t[|t| - 1]))
  {
    TrimEnd(TrimStart(s))
  }

  /** A string without white space at either end is left as it is; so trimming twice is trimming once. */
  lemma {:induction false} TrimKeepsTrimmed(s: string)
    requires s == [] || (!IsSpace(s[0]) && !IsSpace(s[|s| - 1]))
    ensures Trim(s) == s
  {
  }

  // ---------------------------------------------------------------------
  // Answers

  /** The position of the first `x` in `s`, or -1. */
  function IndexOf<T(==)>(s: seq<T>, x: T): (i: int)
    ensures -1 <= i < |s|
    ensures i == -1 <==> x !in s
    ensures i >= 0 ==> s[i] == x && x !in s[..i]
    ensures forall k :: 0 <= k < |s| && s[k] == x ==> 0 <= i <= k
  {
    if s == [] then -1
    else if s[0] == x then 0
    else
      var i := IndexOf(s[1..], x);
      if i == -1 then -1
      else
        assert s[..i + 1] == [s[0]] + s[1..][..i];
        i + 1
  }

  /** The entries of `s` from position `i` on that occur for the first time, in order. */
  function FirstsFrom<T(==)>(s: seq<T>, i: nat): seq<T>
    requires i <= |s|
    decreases |s| - i
  {
    if i == |s| then []
    else (if s[i] in s[..i] then [] else [s[i]]) + FirstsFrom(s, i + 1)
  }

  /** The first occurrence of every entry, in order. */
  function KeepFirst<T(==)>(s: seq<T>): seq<T> {
    FirstsFrom(s, 0)
  }

  lemma {:induction false} FirstsFromMembers<T>(s: seq<T>, i: nat, x: T)
    requires i <= |s|
    ensures x in FirstsFrom(s, i) <==> exists j :: i <= j < |s| && s[j] == x && x !in s[..j]
    decreases |s| - i
  {
    if i < |s| {
      var head: seq<T> := if s[i] in s[..i] then [] else [s[i]];
      assert FirstsFrom(s, i) == head + FirstsFrom(s, i + 1);
      FirstsFromMembers(s, i + 1, x);
      if x in FirstsFrom(s, i) && x !in FirstsFrom(s, i + 1) {
        assert x in head;
        assert i <= i < |s| && s[i] == x && x !in s[..i];
      }
      if exists j :: i <= j < |s| && s[j] == x && x !in s[..j] {
        var j :| i <= j < |s| && s[j] == x && x !in s[..j];
        if j == i {
          assert x in head;
        } else {
          assert i + 1 <= j;
        }
      }
    }
  }

  lemma {:induction false} FirstsFromDistinct<T>(s: seq<T>, i: nat)
    requires i <= |s|
    ensures Distinct(FirstsFrom(s, i))
    decreases |s| - i
  {
    if i < |s| {
      FirstsFromDistinct(s, i + 1);
      if s[i] !in s[..i] {
        FirstsFromMembers(s, i + 1, s[i]);
        forall j | i + 1 <= j < |s| && s[j] == s[i] ensures s[i] in s[..j] {
          assert s[..j][i] == s[i];
        }
        var r := FirstsFrom(s, i);
        assert r == [s[i]] + FirstsFrom(s, i + 1);
        forall a, b | 0 <= a < b < |r| ensures r[a] != r[b] {
          if a > 0 {
            assert r[a] == FirstsFrom(s, i + 1)[a - 1] && r[b] == FirstsFrom(s, i + 1)[b - 1];
          } else {
            assert r[b] in FirstsFrom(s, i + 1);
          }
        }
      }
    }
  }

  /** De-duplication keeps every answer, each once. */
  lemma {:induction false} KeepFirstMembers<T>(s: seq<T>)
    ensures forall x :: x in KeepFirst(s) <==> x in s
    ensures Distinct(KeepFirst(s))
  {
    forall x ensures x in KeepFirst(s) <==> x in s {
      FirstsFromMembers(s, 0, x);
      if x in s {
        var j := IndexOf(s, x);
        assert 0 <= j < |s| && s[j] == x && x !in s[..j];
      }
    }
    FirstsFromDistinct(s, 0);
  }

  /** A list without repeats is left as it is. */
  lemma {:induction false} KeepFirstOfDistinct<T>(s: seq<T>, i: nat)
    requires Distinct(s) && i <= |s|
    ensures FirstsFrom(s, i) == s[i..]
    decreases |s| - i
  {
    if i < |s| {
      KeepFirstOfDistinct(s, i + 1);
      assert s[i] !in s[..i];
      assert s[i..] == [s[i]] + s[i + 1..];
    }
  }

  /** The list as the de-duplication loop holds it before looking at position `i`. */
  function DedupState<T(==)>(answers: seq<T>, i: nat): seq<T>
    requires i < |answers|
  {
    answers[..i + 1] + FirstsFrom(answers, i + 1)
  }

  /** The loop finds an earlier copy of the entry at `i` exactly when the entry occurred before. */
  lemma {:induction false} DedupProbe<T>(answers: seq<T>, i: nat)
    requires i < |answers|
    ensures var r := DedupState(answers, i);
      i < |r| && r[i] == answers[i] && r[..i] == answers[..i] &&
      (IndexOf(r, r[i]) != i <==> answers[i] in answers[..i])
  {
    var r := DedupState(answers, i);
    assert answers[..i + 1] == answers[..i] + [answers[i]];
    assert r[..i] == answers[..i] && r[i] == answers[i];
    var j := IndexOf(r, r[i]);
    if j != i {
      assert answers[..i][j] == answers[i];
    }
  }

  lemma {:induction false} DedupDrop<T>(answers: seq<T>, i: nat)
    requires i < |answers| && answers[i] in answers[..i]
    ensures var r := DedupState(answers, i);
      i < |r| && r[..i] + r[i + 1..] == answers[..i] + FirstsFrom(answers, i)
  {
    var t := FirstsFrom(answers, i + 1);
    assert FirstsFrom(answers, i) == t;
    assert DedupState(answers, i) == answers[..i] + [answers[i]] + t by {
      assert answers[..i + 1] == answers[..i] + [answers[i]];
    }
    CutOut(answers[..i], answers[i], t);
  }

  /** Splicing out the entry between `x` and `t` leaves `x + t`. */
  lemma {:induction false} CutOut<T>(x: seq<T>, y: T, t: seq<T>)
    ensures var r := x + [y] + t; r[..|x|] + r[|x| + 1..] == x + t
  {
    var r := x + [y] + t;
    assert r[..|x|] == x && r[|x| + 1..] == t;
  }

  lemma {:induction false} DedupKeep<T>(answers: seq<T>, i: nat)
    requires i < |answers| && answers[i] !in answers[..i]
    ensures DedupState(answers, i) == answers[..i] + FirstsFrom(answers, i)
  {
    var t := FirstsFrom(answers, i + 1);
    assert FirstsFrom(answers, i) == [answers[i]] + t;
    assert answers[..i + 1] + t == answers[..i] + ([answers[i]] + t) by {
      assert answers[..i + 1] == answers[..i] + [answers[i]];
    }
  }

  /**
   * The de-duplication loop: from the last answer to the first, an answer
   * that occurs earlier is spliced out of the list.
   */
  method DedupAnswers<T(==)>(answers: seq<T>) returns (r: seq<T>)
    ensures r == KeepFirst(answers)
  {
    r := answers;
    var i := |answers|;
    while i > 0
      invariant 0 <= i <= |answers|
      invariant r == answers[..i] + FirstsFrom(answers, i)
      decreases i
    {
      i := i - 1;
      assert r == DedupState(answers, i) by {
        assert answers[..i + 1] == answers[..i] + [answers[i]];
      }
      DedupProbe(answers, i);
      if IndexOf(r, r[i]) != i {
        DedupDrop(answers, i);
        r := r[..i] + r[i + 1..];
      } else {
        DedupKeep(answers, i);
      }
    }
  }

  /** The answer ids of the answers field: split on commas, each normalised. */
  function AnswerIds(text: string): (ids: seq<string>)
    ensures |ids| == |SplitOn(text, ',')| >= 1
    ensures forall k :: 0 <= k < |ids| ==> ids[k] == ToId(SplitOn(text, ',')[k])
  {
    var parts := SplitOn(text, ',');
    seq(|parts|, k requires 0 <= k < |parts| => ToId(parts[k]))
  }

  /**
   * As written, the check for an empty answer list can never fire: the
   * split always has a piece, and de-duplication keeps one of each.
   */
  lemma {:induction false} AnswersNeverEmpty(text: string)
    ensures |KeepFirst(AnswerIds(text))| >= 1
  {
    var ids := AnswerIds(text);
    KeepFirstMembers(ids);
    assert ids[0] in KeepFirst(ids);
  }

  /** An answers field of nothing but separators yields the single answer id "", which no answer can match. */
  lemma {:induction false} EmptyAnswerIdKept()
    ensures KeepFirst(AnswerIds(",,")) == [""]
  {
    assert ',' in ",,";
    assert Find(",,", ',') == 0;
    assert ",,"[1..] == ",";
    assert Find(",", ',') == 0;
    assert ","[1..] == "";
    var parts := SplitOn(",,", ',');
    assert parts == ["", "", ""];
    var ids := AnswerIds(",,");
    assert ids == ["", "", ""];
    assert ids[..1] == [""] && ids[..2] == ["", ""];
    assert FirstsFrom(ids, 3) == [];
    assert FirstsFrom(ids, 2) == [];
    assert FirstsFrom(ids, 1) == [];
  }

  /** The non-empty entries of a list of ids, in order. */
  function NonEmpty(ids: seq<string>): (r: seq<string>)
    ensures forall x :: x in r <==> x in ids && x != ""
  {
    if ids == [] then []
    else (if ids[0] == "" then [] else [ids[0]]) + NonEmpty(ids[1..])
  }

  /**
   * The answers of a submission as evidently intended: the non-empty ids,
   * de-duplicated. It has no empty id, and it is empty exactly when every
   * id of the field is empty, so the no-answers refusal fires then.
   */
  function UsableAnswers(text: string): (answers: seq<string>)
    ensures "" !in answers && Distinct(answers)
    ensures forall x :: x in answers <==> x in AnswerIds(text) && x != ""
    ensures answers == [] <==> forall k :: 0 <= k < |AnswerIds(text)| ==> AnswerIds(text)[k] == ""
  {
    var ids := NonEmpty(AnswerIds(text));
    KeepFirstMembers(ids);
    var answers := KeepFirst(ids);
    assert answers == [] <==> forall k :: 0 <= k < |AnswerIds(text)| ==> AnswerIds(text)[k] == "" by {
      if answers == [] {
        forall k | 0 <= k < |AnswerIds(text)| ensures AnswerIds(text)[k] == "" {
          assert AnswerIds(text)[k] in AnswerIds(text);
        }
      } else {
        assert answers[0] in AnswerIds(text);
      }
    }
    answers
  }

  // ---------------------------------------------------------------------
  // The review list, ordered by category

  /** JavaScript's `<` on strings: lexicographic on characters, a proper prefix first. */
  predicate Below(a: string, b: string) {
    if a == [] then b != []
    else if b == [] then false
    else if a[0] == b[0] then Below(a[1..], b[1..])
    else a[0] < b[0]
  }

  lemma {:induction false} BelowIrreflexive(a: string)
    ensures !Below(a, a)
  {
    if a != [] {
      BelowIrreflexive(a[1..]);
    }
  }

  lemma {:induction false} BelowTransitive(a: string, b: string, c: string)
    requires Below(a, b) && Below(b, c)
    ensures Below(a, c)
  {
    if a != [] && b != [] && c != [] && a[0] == b[0] && b[0] == c[0] {
      BelowTransitive(a[1..], b[1..], c[1..]);
    }
  }

  lemma {:induction false} BelowTotal(a: string, b: string)
    ensures a == b || Below(a, b) || Below(b, a)
  {
    if a != [] && b != [] && a[0] == b[0] {
      BelowTotal(a[1..], b[1..]);
      if a[1..] == b[1..] {
        assert a == [a[0]] + a[1..] && b == [b[0]] + b[1..];
      }
    }
  }

  /** Every entry's category is at least that of the entries before it. */
  ghost predicate CategorySorted(subs: seq<Question>) {
    forall j, k :: 0 <= j < k < |subs| ==> !Below(subs[k].category, subs[j].category)
  }

  /** Where a submission of `category` goes: before the first entry of a greater category, else at the end. */
  function Slot(subs: seq<Question>, category: string): (k: nat)
    ensures k <= |subs|
    ensures forall j :: 0 <= j < k ==> !Below(category, subs[j].category)
    ensures k < |subs| ==> Below(category, subs[k].category)
  {
    if subs == [] || Below(category, subs[0].category) then 0
    else
      var k := 1 + Slot(subs[1..], category);
      assert forall j :: 1 <= j < k ==> subs[j] == subs[1..][j - 1];
      k
  }

  /** The review list with `q` inserted at its slot. */
  function Inserted(subs: seq<Question>, q: Question): seq<Question> {
    var k := Slot(subs, q.category);
    subs[..k] + [q] + subs[k..]
  }

  /** In a sorted list every entry from the slot on has a greater category. */
  lemma {:induction false} SlotSplits(subs: seq<Question>, category: string)
    requires CategorySorted(subs)
    ensures forall j :: Slot(subs, category) <= j < |subs| ==> Below(category, subs[j].category)
  {
    var k := Slot(subs, category);
    forall j | k < j < |subs| ensures Below(category, subs[j].category) {
      BelowTotal(subs[j].category, subs[k].category);
      if subs[j].category != subs[k].category {
        BelowTransitive(category, subs[k].category, subs[j].category);
      }
    }
  }

  /** Insertion keeps a category-sorted list sorted. */
  lemma {:induction false} InsertedSorted(subs: seq<Question>, q: Question)
    requires CategorySorted(subs)
    ensures CategorySorted(Inserted(subs, q))
  {
    var k := Slot(subs, q.category);
    var r := Inserted(subs, q);
    SlotSplits(subs, q.category);
    forall i, j | 0 <= i < j < |r| ensures !Below(r[j].category, r[i].category) {
      SortedAround(subs, q, k, i, j);
    }
  }

  /** Insertion adds exactly the new submission, at its slot. */
  lemma {:induction false} InsertedAdds(subs: seq<Question>, q: Question)
    ensures multiset(Inserted(subs, q)) == multiset(subs) + multiset{q}
    ensures Inserted(subs, q)[Slot(subs, q.category)] == q
  {
    var k := Slot(subs, q.category);
    var a, b := subs[..k], subs[k..];
    assert subs == a + b;
    assert multiset(a + [q] + b) == multiset(a) + multiset{q} + multiset(b);
  }

  /** Where the entries of the list end up once `q` is inserted at position `k`. */
  lemma {:induction false} InsertedAt(subs: seq<Question>, q: Question, k: nat, m: nat)
    requires k <= |subs| && m <= |subs|
    ensures var r := subs[..k] + [q] + subs[k..];
      |r| == |subs| + 1 && r[k] == q &&
      (m < k ==> r[m] == subs[m]) && (m > k ==> r[m] == subs[m - 1])
  {
  }

  /** One pair of entries of the list after insertion is in order. */
  lemma {:induction false} SortedAround(subs: seq<Question>, q: Question, k: nat, i: nat, j: nat)
    requires CategorySorted(subs) && k == Slot(subs, q.category)
    requires forall j :: k <= j < |subs| ==> Below(q.category, subs[j].category)
    requires i < j < |subs| + 1
    ensures var r := subs[..k] + [q] + subs[k..]; !Below(r[j].category, r[i].category)
  {
    InsertedAt(subs, q, k, i);
    InsertedAt(subs, q, k, j);
    if i == k {
      var c := subs[j - 1].category;
      if Below(c, q.category) {
        BelowTransitive(q.category, c, q.category);
        BelowIrreflexive(q.category);
      }
    } else if j != k {
      var i' := if i < k then i else i - 1;
      var j' := if j < k then j else j - 1;
      assert i' < j';
    }
  }

  /** A submission for review: inserted before the first entry of a greater category, or appended. */
  method SubmitForReview(store: Store, q: Question)
    modifies store`submissions
    ensures store.submissions == Inserted(old(store.submissions), q)
  {
    var subs := store.submissions;
    var index := -1;
    var i := 0;
    while i < |subs|
      invariant 0 <= i <= |subs| && index == -1
      invariant forall j :: 0 <= j < i ==> !Below(q.category, subs[j].category)
    {
      if index < 0 && Below(q.category, subs[i].category) {
        index := i;
        break;
      }
      i := i + 1;
    }
    if index < 0 {
      store.submissions := subs + [q];
    } else {
      store.submissions := subs[..index] + [q] + subs[index..];
    }
  }

  // ---------------------------------------------------------------------
  // Index lists

  predicate IsDigit(ch: char) {
    '0' <= ch <= '9'
  }

  predicate IsDigits(s: string) {
    s != [] && forall k :: 0 <= k < |s| ==> IsDigit(s[k])
  }

  function DigitValue(ch: char): nat
    requires IsDigit(ch)
  {
    ch as int - '0' as int
  }

  /** The number a string of decimal digits denotes. */
  function Value(s: string): nat
    requires forall k :: 0 <= k < |s| ==> IsDigit(s[k])
  {
    if s == [] then 0 else 10 * Value(s[..|s| - 1]) + DigitValue(s[|s| - 1])
  }

  /** The decimal digits of a number. */
  function Decimal(n: nat): (s: string)
    ensures IsDigits(s)
  {
    var d := [('0' as int + n % 10) as char];
    if n < 10 then d else Decimal(n / 10) + d
  }

  lemma {:induction false} ValueDecimal(n: nat)
    ensures Value(Decimal(n)) == n
  {
    if n >= 10 {
      ValueDecimal(n / 10);
      var s := Decimal(n);
      assert s[..|s| - 1] == Decimal(n / 10);
    }
  }

  /** One entry of an index list: a submission number, or a range of them. */
  datatype Piece = Single(n: nat) | Span(left: nat, right: nat)

  /** A number, or two numbers joined by a hyphen. */
  function ParsePiece(p: string): Option<Piece> {
    var halves := SplitOn(p, '-');
    if |halves| == 1 && IsDigits(halves[0]) then Some(Single(Value(halves[0])))
    else if |halves| == 2 && IsDigits(halves[0]) && IsDigits(halves[1]) then
      Some(Span(Value(halves[0]), Value(halves[1])))
    else None
  }

  /** The comma-separated parts of an index list; every part after the first may start with one space. */
  function ParseParts(parts: seq<string>, first: bool): (r: Option<seq<Piece>>)
    ensures r.Some? ==> |r.value| == |parts|
  {
    if parts == [] then Some([])
    else
      var part := if !first && parts[0] != [] && parts[0][0] == ' ' then parts[0][1..] else parts[0];
      match (ParsePiece(part), ParseParts(parts[1..], false))
      case (Some(p), Some(rest)) => Some([p] + rest)
      case _ => None
  }

  /**
   * An index list: numbers and ranges separated by a comma and an optional
   * space, as the pattern digits, optionally a hyphen and digits, repeated
   * after ", " or ","; None when the text does not have that form.
   */
  function ParseIndexList(target: string): (r: Option<seq<Piece>>)
    ensures r.Some? ==> |r.value| == |SplitOn(target, ',')| >= 1
  {
    ParseParts(SplitOn(target, ','), true)
  }

  function RenderPiece(p: Piece): (s: string)
    ensures s != [] && ',' !in s && IsDigit(s[0])
  {
    match p
    case Single(n) => Decimal(n)
    case Span(l, r) => Decimal(l) + "-" + Decimal(r)
  }

  /** Each entry written out. */
  function RenderAll(pieces: seq<Piece>): (parts: seq<string>)
    ensures |parts| == |pieces|
    ensures forall k :: 0 <= k < |parts| ==> parts[k] != [] && ',' !in parts[k] && IsDigit(parts[k][0])
  {
    if pieces == [] then [] else [RenderPiece(pieces[0])] + RenderAll(pieces[1..])
  }

  /** An index list written out with plain commas. */
  function Render(pieces: seq<Piece>): string
    requires |pieces| >= 1
  {
    Join(RenderAll(pieces), ',')
  }

  lemma {:induction false} ParseRenderPiece(p: Piece)
    ensures ParsePiece(RenderPiece(p)) == Some(p)
  {
    match p
    case Single(n) =>
      ValueDecimal(n);
      assert '-' !in Decimal(n) by {
        forall k | 0 <= k < |Decimal(n)| ensures Decimal(n)[k] != '-' {
          assert IsDigit(Decimal(n)[k]);
        }
      }
    case Span(l, r) =>
      ValueDecimal(l);
      ValueDecimal(r);
      forall k | 0 <= k < |Decimal(l)| ensures Decimal(l)[k] != '-' {
        assert IsDigit(Decimal(l)[k]);
      }
      forall k | 0 <= k < |Decimal(r)| ensures Decimal(r)[k] != '-' {
        assert IsDigit(Decimal(r)[k]);
      }
      assert Join([Decimal(l), Decimal(r)], '-') == RenderPiece(p);
      SplitJoin([Decimal(l), Decimal(r)], '-');
  }

  lemma {:induction false} ParseRenderParts(pieces: seq<Piece>, first: bool)
    ensures ParseParts(RenderAll(pieces), first) == Some(pieces)
    decreases |pieces|
  {
    if pieces != [] {
      var parts := RenderAll(pieces);
      var head := RenderPiece(pieces[0]);
      assert parts[0] == head && parts[1..] == RenderAll(pieces[1..]);
      assert head[0] != ' ' by {
        assert IsDigit(head[0]);
      }
      assert ParsePiece(head) == Some(pieces[0]) by {
        ParseRenderPiece(pieces[0]);
      }
      assert ParseParts(parts[1..], false) == Some(pieces[1..]) by {
        ParseRenderParts(pieces[1..], false);
      }
      assert pieces == [pieces[0]] + pieces[1..];
    }
  }

  /** A written-out index list parses back to the same entries. */
  lemma {:induction false} ParseRender(pieces: seq<Piece>)
    requires |pieces| >= 1
    ensures ParseIndexList(Render(pieces)) == Some(pieces)
  {
    SplitJoin(RenderAll(pieces), ',');
    ParseRenderParts(pieces, true);
  }

  /** The numbers from `hi` down to `lo`, or just `hi` when `lo` is above it. */
  function DownFrom(hi: int, lo: int): seq<int>
    decreases hi - lo
  {
    [hi] + if hi - 1 >= lo then DownFrom(hi - 1, lo) else []
  }

  lemma {:induction false} DownFromMembers(hi: int, lo: int, x: int)
    ensures x in DownFrom(hi, lo) <==> x == hi || lo <= x <= hi
    decreases hi - lo
  {
    if hi - 1 >= lo {
      DownFromMembers(hi - 1, lo, x);
    }
  }

  lemma {:induction false} DownFromExtend(hi: int, lo: int)
    requires lo <= hi
    ensures DownFrom(hi, lo) + [lo - 1] == DownFrom(hi, lo - 1)
    decreases hi - lo
  {
    if hi - 1 >= lo {
      DownFromExtend(hi - 1, lo);
    }
  }

  /** Whether a range is refused: its left end below 1, its right end past the list, or both ends equal. */
  predicate SpanRefused(l: int, r: int, len: int) {
    l < 1 || r > len || l == r
  }

  /**
   * The expansion as the loop builds it, from entry `i` on: the entries are
   * visited from the last to the first; a valid number takes the place of
   * its entry, an accepted range appends its numbers from the right end
   * down, and anything else is removed.
   */
  function ExpandedFrom(pieces: seq<Piece>, i: nat, len: nat): seq<int>
    requires i <= |pieces|
    decreases |pieces| - i
  {
    if i == |pieces| then []
    else
      var tail := ExpandedFrom(pieces, i + 1, len);
      match pieces[i]
      case Single(n) => if 1 <= n <= len then [n] + tail else tail
      case Span(l, r) => if SpanRefused(l, r, len) then tail else tail + DownFrom(r, l)
  }

  /** Whether an entry names submission number `x`, for a list of `len` submissions. */
  ghost predicate Names(p: Piece, len: nat, x: int) {
    match p
    case Single(n) => 1 <= n <= len && x == n
    case Span(l, r) =>
      !SpanRefused(l, r, len) && (if l < r then l <= x <= r else x == r)
  }

  /** Whether some entry from `i` on names `x`. */
  ghost predicate NamedFrom(pieces: seq<Piece>, i: nat, len: nat, x: int)
    requires i <= |pieces|
    decreases |pieces| - i
  {
    i < |pieces| && (Names(pieces[i], len, x) || NamedFrom(pieces, i + 1, len, x))
  }

  /** The expansion holds exactly the numbers the entries name. */
  lemma {:induction false} ExpandedNamed(pieces: seq<Piece>, i: nat, len: nat, x: int)
    requires i <= |pieces|
    ensures x in ExpandedFrom(pieces, i, len) <==> NamedFrom(pieces, i, len, x)
    decreases |pieces| - i
  {
    if i < |pieces| {
      ExpandedNamed(pieces, i + 1, len, x);
      match pieces[i]
      case Single(n) =>
      case Span(l, r) =>
        DownFromMembers(r, l, x);
    }
  }

  /**
   * Every named number is at most the list's length and not negative; 0
   * is named only by a range whose right end is 0 and whose left end is
   * above it, which the validity check lets through.
   */
  lemma {:induction false} NamedBounds(pieces: seq<Piece>, i: nat, len: nat, x: int)
    requires i <= |pieces| && NamedFrom(pieces, i, len, x)
    ensures 0 <= x <= len
    ensures x == 0 ==> exists k :: i <= k < |pieces| && pieces[k].Span? && pieces[k].right == 0 && pieces[k].left >= 1
    decreases |pieces| - i
  {
    if !Names(pieces[i], len, x) {
      NamedBounds(pieces, i + 1, len, x);
    }
  }

  /** A range running downwards from a valid left end names its right end alone, which can be 0. */
  lemma {:induction false} ReversedSpan(l: nat, r: nat, len: nat)
    requires 1 <= l <= len && r < l
    ensures forall x :: Names(Span(l, r), len, x) <==> x == r
    ensures ExpandedFrom([Span(l, r)], 0, len) == [r]
  {
  }

  /**
   * The expansion loop: from the last entry to the first, a number in
   * range is kept in place, a range not refused pushes its numbers from the
   * right end down (at least the right end), and the other entries are
   * spliced out.
   */
  method ExpandIndices(pieces: seq<Piece>, len: nat) returns (indices: seq<int>)
    ensures indices == ExpandedFrom(pieces, 0, len)
  {
    indices := [];
    var i := |pieces|;
    while i > 0
      invariant 0 <= i <= |pieces|
      invariant indices == ExpandedFrom(pieces, i, len)
      decreases i
    {
      i := i - 1;
      match pieces[i] {
        case Single(n) =>
          if 1 <= n <= len {
            indices := [n] + indices;
          }
        case Span(left, right) =>
          if !SpanRefused(left, right, len) {
            ghost var before := indices;
            var r := right;
            indices := indices + [r];
            r := r - 1;
            while r >= left
              invariant r < right && (left - 1 <= r || r == right - 1)
              invariant indices == before + DownFrom(right, r + 1)
              decreases r
            {
              DownFromExtend(right, r + 1);
              indices := indices + [r];
              r := r - 1;
            }
          }
      }
    }
  }

  predicate NonIncreasing(s: seq<int>) {
    forall j, k :: 0 <= j < k < |s| ==> s[j] >= s[k]
  }

  predicate Decreasing(s: seq<int>) {
    forall j, k :: 0 <= j < k < |s| ==> s[j] > s[k]
  }

  /** `x` inserted into a list before the first entry not above it. */
  function InsertDown(x: int, s: seq<int>): seq<int> {
    if s == [] || x >= s[0] then [x] + s else [s[0]] + InsertDown(x, s[1..])
  }

  lemma {:induction false} InsertDownBelow(x: int, s: seq<int>, m: int)
    requires x <= m && forall k :: 0 <= k < |s| ==> s[k] <= m
    ensures forall k :: 0 <= k < |InsertDown(x, s)| ==> InsertDown(x, s)[k] <= m
  {
    if s != [] && x < s[0] {
      InsertDownBelow(x, s[1..], m);
    }
  }

  lemma {:induction false} ConsNonIncreasing(h: int, rest: seq<int>)
    requires NonIncreasing(rest) && forall k :: 0 <= k < |rest| ==> rest[k] <= h
    ensures NonIncreasing([h] + rest)
  {
    var r := [h] + rest;
    forall a, b | 0 <= a < b < |r| ensures r[a] >= r[b] {
      assert r[b] == rest[b - 1];
      if a > 0 {
        assert r[a] == rest[a - 1];
      }
    }
  }

  lemma InsertDownSpec(x: int, s: seq<int>)
    requires NonIncreasing(s)
    ensures NonIncreasing(InsertDown(x, s))
    ensures multiset(InsertDown(x, s)) == multiset(s) + multiset{x}
  {
    InsertDownSorted(x, s);
    InsertDownCount(x, s);
  }

  lemma {:induction false} InsertDownSorted(x: int, s: seq<int>)
    requires NonIncreasing(s)
    ensures NonIncreasing(InsertDown(x, s))
  {
    if s == [] || x >= s[0] {
      ConsNonIncreasing(x, s);
    } else {
      var t := InsertDown(x, s[1..]);
      assert NonIncreasing(s[1..]) && forall k :: 0 <= k < |s[1..]| ==> s[1..][k] <= s[0];
      InsertDownSorted(x, s[1..]);
      InsertDownBelow(x, s[1..], s[0]);
      ConsNonIncreasing(s[0], t);
    }
  }

  lemma {:induction false} InsertDownCount(x: int, s: seq<int>)
    ensures multiset(InsertDown(x, s)) == multiset(s) + multiset{x}
  {
    if s != [] && x < s[0] {
      InsertDownCount(x, s[1..]);
      assert s == [s[0]] + s[1..];
    }
  }

  /** The numbers sorted from the largest down. */
  function SortDown(xs: seq<int>): seq<int> {
    if xs == [] then [] else InsertDown(xs[0], SortDown(xs[1..]))
  }

  lemma {:induction false} SortDownSpec(xs: seq<int>)
    ensures NonIncreasing(SortDown(xs)) && multiset(SortDown(xs)) == multiset(xs)
  {
    if xs != [] {
      SortDownSpec(xs[1..]);
      InsertDownSpec(xs[0], SortDown(xs[1..]));
      assert xs == [xs[0]] + xs[1..];
    }
  }

  /** The entries from position `k` on that differ from the entry before them (the first always counts). */
  function DropRepeatsFrom(s: seq<int>, k: nat): seq<int>
    requires k <= |s|
    decreases |s| - k
  {
    if k == |s| then []
    else (if k == 0 || s[k - 1] != s[k] then [s[k]] else []) + DropRepeatsFrom(s, k + 1)
  }

  lemma {:induction false} ConsDecreasing(h: int, rest: seq<int>)
    requires Decreasing(rest) && (rest != [] ==> rest[0] < h)
    ensures Decreasing([h] + rest)
  {
    var r := [h] + rest;
    forall a, b | 0 <= a < b < |r| ensures r[a] > r[b] {
      assert r[b] == rest[b - 1];
      if a > 0 {
        assert r[a] == rest[a - 1];
      } else if b > 1 {
        assert rest[b - 1] < rest[0];
      }
    }
  }

  lemma {:induction false} DropRepeatsFromOrder(s: seq<int>, k: nat)
    requires NonIncreasing(s) && k <= |s|
    ensures var r := DropRepeatsFrom(s, k);
      Decreasing(r) && (r != [] && k > 0 ==> r[0] < s[k - 1])
    decreases |s| - k
  {
    if k < |s| {
      DropRepeatsFromOrder(s, k + 1);
      if k == 0 || s[k - 1] != s[k] {
        ConsDecreasing(s[k], DropRepeatsFrom(s, k + 1));
      }
    }
  }

  lemma {:induction false} DropRepeatsFromMembers(s: seq<int>, k: nat, x: int)
    requires NonIncreasing(s) && k <= |s|
    ensures x in DropRepeatsFrom(s, k) <==> x in s[k..] && (k == 0 || x != s[k - 1])
    decreases |s| - k
  {
    if k < |s| {
      DropRepeatsFromMembers(s, k + 1, x);
      assert s[k..] == [s[k]] + s[k + 1..];
      if x in s[k + 1..] {
        var j :| k + 1 <= j < |s| && s[j] == x;
        assert s[k] >= x;
      }
    }
  }

  /** The index list as sorted from the largest down with repeats dropped. */
  function Normalized(xs: seq<int>): seq<int> {
    DropRepeatsFrom(SortDown(xs), 0)
  }

  /** Normalising lists every number once, from the largest down. */
  lemma {:induction false} NormalizedSpec(xs: seq<int>)
    ensures Decreasing(Normalized(xs))
    ensures forall x :: x in Normalized(xs) <==> x in xs
  {
    var sorted := SortDown(xs);
    SortDownSpec(xs);
    DropRepeatsFromOrder(sorted, 0);
    assert sorted[0..] == sorted;
    forall x ensures x in Normalized(xs) <==> x in xs {
      DropRepeatsFromMembers(sorted, 0, x);
      assert x in sorted <==> x in multiset(sorted);
    }
  }

  // ---------------------------------------------------------------------
  // Removing submissions by number

  /** Where JavaScript's `splice` starts on a list of `len` entries: a negative start counts from the end. */
  function SpliceStart(start: int, len: nat): nat {
    if start >= 0 then start else if len + start < 0 then 0 else len + start
  }

  /** JavaScript's `splice(start, 1)`: the list without the entry at the start, and that entry, if any. */
  function SpliceOne<T>(s: seq<T>, start: int): (r: (seq<T>, Option<T>))
    ensures r.1.None? ==> r.0 == s
  {
    var at := SpliceStart(start, |s|);
    if at < |s| then (s[..at] + s[at + 1..], Some(s[at])) else (s, None)
  }

  lemma {:induction false} SpliceOneConserves<T>(s: seq<T>, start: int)
    ensures var r := SpliceOne(s, start);
      multiset(r.0) + (if r.1.Some? then multiset{r.1.value} else multiset{}) == multiset(s)
  {
    var at := SpliceStart(start, |s|);
    if at < |s| {
      assert s == s[..at] + [s[at]] + s[at + 1..];
    }
  }

  /**
   * The removal loop from position `i` of the index list down: it splices
   * by the entry at `i - 1`, then by the ones before it, each on the list
   * the previous splice left.
   */
  function RemovedBefore<T>(subs: seq<T>, idx: seq<int>, i: nat): (r: (seq<T>, seq<Option<T>>))
    requires i <= |idx|
    ensures |r.1| == i
  {
    if i == 0 then (subs, [])
    else
      var first := SpliceOne(subs, idx[i - 1] - 1);
      var rest := RemovedBefore(first.0, idx, i - 1);
      (rest.0, [first.1] + rest.1)
  }

  /**
   * Removal as the loop is written: the index list runs from the largest
   * number down, and the loop splices from its last entry to its first,
   * so the smallest number goes first and every later splice lands on a
   * list that has already shrunk.
   */
  function RemovedAsWritten<T>(subs: seq<T>, idx: seq<int>): (r: (seq<T>, seq<Option<T>>))
    ensures |r.1| == |idx|
  {
    RemovedBefore(subs, idx, |idx|)
  }

  /** Removal as evidently intended: the largest number first, so the smaller ones keep their positions. */
  function RemovedLargestFirst<T>(subs: seq<T>, idx: seq<int>): (r: (seq<T>, seq<Option<T>>))
    ensures |r.1| == |idx|
  {
    if idx == [] then (subs, [])
    else
      var first := SpliceOne(subs, idx[0] - 1);
      var rest := RemovedLargestFirst(first.0, idx[1..]);
      (rest.0, [first.1] + rest.1)
  }

  /** The entries from position `base + 1` on whose 1-based numbers are not in `out`. */
  function RemainingFrom<T>(s: seq<T>, out: set<int>, base: int): seq<T> {
    if s == [] then []
    else (if base + 1 in out then [] else [s[0]]) + RemainingFrom(s[1..], out, base + 1)
  }

  /** The review list without the submissions whose numbers are in `out`. */
  function Remaining<T>(s: seq<T>, out: set<int>): seq<T> {
    RemainingFrom(s, out, 0)
  }

  lemma {:induction false} RemainingAppend<T>(a: seq<T>, b: seq<T>, out: set<int>, base: int)
    ensures RemainingFrom(a + b, out, base) == RemainingFrom(a, out, base) + RemainingFrom(b, out, base + |a|)
    decreases |a|
  {
    if a != [] {
      assert (a + b)[0] == a[0] && (a + b)[1..] == a[1..] + b;
      RemainingAppend(a[1..], b, out, base + 1);
    } else {
      assert a + b == b;
    }
  }

  lemma {:induction false} RemainingAgree<T>(s: seq<T>, out1: set<int>, out2: set<int>, base: int)
    requires forall x :: base < x <= base + |s| ==> (x in out1 <==> x in out2)
    ensures RemainingFrom(s, out1, base) == RemainingFrom(s, out2, base)
    decreases |s|
  {
    if s != [] {
      RemainingAgree(s[1..], out1, out2, base + 1);
    }
  }

  lemma {:induction false} RemainingAll<T>(s: seq<T>, out: set<int>, base: int)
    requires forall x :: base < x <= base + |s| ==> x !in out
    ensures RemainingFrom(s, out, base) == s
    decreases |s|
  {
    if s != [] {
      RemainingAll(s[1..], out, base + 1);
      assert s == [s[0]] + s[1..];
    }
  }

  /** Removing the entry numbered `p` first leaves what removing `p` along with the smaller numbers leaves. */
  lemma {:induction false} RemainingSkip<T>(subs: seq<T>, out: set<int>, p: int)
    requires 1 <= p <= |subs|
    requires forall x :: x in out ==> x < p
    ensures Remaining(subs[..p - 1] + subs[p..], out) == Remaining(subs, out + {p})
  {
    SkipShorter(subs, out, p);
    SkipLonger(subs, out, p);
  }

  lemma {:induction false} SkipShorter<T>(subs: seq<T>, out: set<int>, p: int)
    requires 1 <= p <= |subs|
    requires forall x :: x in out ==> x < p
    ensures Remaining(subs[..p - 1] + subs[p..], out) == RemainingFrom(subs[..p - 1], out, 0) + subs[p..]
  {
    RemainingAppend(subs[..p - 1], subs[p..], out, 0);
    RemainingAll(subs[p..], out, p - 1);
  }

  lemma {:induction false} SkipLonger<T>(subs: seq<T>, out: set<int>, p: int)
    requires 1 <= p <= |subs|
    requires forall x :: x in out ==> x < p
    ensures Remaining(subs, out + {p}) == RemainingFrom(subs[..p - 1], out, 0) + subs[p..]
  {
    var a, b := subs[..p - 1], subs[p..];
    assert subs == a + [subs[p - 1]] + b by {
      assert subs == subs[..p - 1] + subs[p - 1..];
    }
    RemainingAppend(a + [subs[p - 1]], b, out + {p}, 0);
    RemainingAppend(a, [subs[p - 1]], out + {p}, 0);
    RemainingAgree(a, out, out + {p}, 0);
    RemainingAll(b, out + {p}, p);
  }

  /** Numbers in range from the largest down: each names an entry still there when its turn comes. */
  ghost predicate RemovableOrder(idx: seq<int>, len: nat) {
    Decreasing(idx) && forall j :: 0 <= j < |idx| ==> 1 <= idx[j] <= len
  }

  lemma {:induction false} RemovableTail(idx: seq<int>, len: nat)
    requires RemovableOrder(idx, len) && idx != []
    ensures RemovableOrder(idx[1..], idx[0] - 1)
  {
    assert forall j :: 0 <= j < |idx[1..]| ==> idx[1..][j] == idx[j + 1] < idx[0];
  }

  /**
   * Removing by a list of distinct numbers from the largest down, all
   * naming entries of the list, leaves exactly the entries not named.
   */
  lemma {:induction false} LargestFirstLeaves<T>(subs: seq<T>, idx: seq<int>)
    requires RemovableOrder(idx, |subs|)
    ensures RemovedLargestFirst(subs, idx).0 == Remaining(subs, set x | x in idx)
  {
    if idx != [] {
      var p := idx[0];
      var shorter := subs[..p - 1] + subs[p..];
      assert SpliceOne(subs, p - 1).0 == shorter;
      RemovableTail(idx, |subs|);
      LargestFirstLeaves(shorter, idx[1..]);
      var smaller := set x | x in idx[1..];
      RemainingSkip(subs, smaller, p);
      assert (set x | x in idx) == smaller + {p} by {
        assert idx == [p] + idx[1..];
      }
    } else {
      assert (set x | x in idx) == {};
      RemainingAll(subs, {}, 0);
    }
  }

  /** The same removal takes each named entry from its original position, in the order of the list. */
  lemma {:induction false} LargestFirstTakes<T>(subs: seq<T>, idx: seq<int>)
    requires RemovableOrder(idx, |subs|)
    ensures forall j :: 0 <= j < |idx| ==> RemovedLargestFirst(subs, idx).1[j] == Some(subs[idx[j] - 1])
  {
    if idx != [] {
      var p := idx[0];
      var shorter := subs[..p - 1] + subs[p..];
      assert SpliceOne(subs, p - 1) == (shorter, Some(subs[p - 1]));
      RemovableTail(idx, |subs|);
      LargestFirstTakes(shorter, idx[1..]);
      forall j | 0 < j < |idx| ensures RemovedLargestFirst(subs, idx).1[j] == Some(subs[idx[j] - 1]) {
        assert idx[j] == idx[1..][j - 1] < p;
      }
    }
  }

  /** Removal loses nothing: the entries left and the entries taken are the entries there were. */
  lemma {:induction false} LargestFirstConserves<T>(subs: seq<T>, idx: seq<int>)
    ensures multiset(RemovedLargestFirst(subs, idx).0) + multiset(Present(RemovedLargestFirst(subs, idx).1)) == multiset(subs)
  {
    if idx != [] {
      var first := SpliceOne(subs, idx[0] - 1);
      SpliceOneConserves(subs, idx[0] - 1);
      LargestFirstConserves(first.0, idx[1..]);
      var taken := RemovedLargestFirst(subs, idx).1;
      assert taken[1..] == RemovedLargestFirst(first.0, idx[1..]).1;
    }
  }

  /** Removal as written loses nothing either: what is left and what was taken are the entries there were. */
  lemma AsWrittenConserves<T>(subs: seq<T>, idx: seq<int>)
    ensures multiset(RemovedAsWritten(subs, idx).0) + multiset(Present(RemovedAsWritten(subs, idx).1)) == multiset(subs)
  {
    BeforeConserves(subs, idx, |idx|);
  }

  lemma {:induction false} BeforeConserves<T>(subs: seq<T>, idx: seq<int>, i: nat)
    requires i <= |idx|
    ensures multiset(RemovedBefore(subs, idx, i).0) + multiset(Present(RemovedBefore(subs, idx, i).1)) == multiset(subs)
  {
    if i > 0 {
      var first := SpliceOne(subs, idx[i - 1] - 1);
      var rest := RemovedBefore(first.0, idx, i - 1);
      SpliceOneConserves(subs, idx[i - 1] - 1);
      BeforeConserves(first.0, idx, i - 1);
      ConservesStep(subs, first.0, first.1, rest.0, rest.1);
    }
  }

  /** One splice followed by the rest of the loop loses nothing, if each of the two loses nothing. */
  lemma ConservesStep<T>(subs: seq<T>, shorter: seq<T>, took: Option<T>, left: seq<T>, taken: seq<Option<T>>)
    requires multiset(shorter) + (if took.Some? then multiset{took.value} else multiset{}) == multiset(subs)
    requires multiset(left) + multiset(Present(taken)) == multiset(shorter)
    ensures multiset(left) + multiset(Present([took] + taken)) == multiset(subs)
  {
    assert ([took] + taken)[1..] == taken;
  }

  /** Removal as written by a single number in range takes exactly that entry. */
  lemma {:induction false} AsWrittenOne<T>(subs: seq<T>, p: int)
    requires 1 <= p <= |subs|
    ensures RemovedAsWritten(subs, [p]).0 == subs[..p - 1] + subs[p..]
    ensures RemovedAsWritten(subs, [p]).1 == [Some(subs[p - 1])]
  {
    var first := SpliceOne(subs, p - 1);
    assert first.0 == subs[..p - 1] + subs[p..] && first.1 == Some(subs[p - 1]);
    assert RemovedBefore(first.0, [p], 0).0 == first.0 && RemovedBefore(first.0, [p], 0).1 == [];
    assert [first.1] + [] == [first.1];
  }

  /** Number 0 splices at -1, which counts from the end: a list naming 0 alone takes the last entry. */
  lemma {:induction false} ZeroTakesLast<T>(subs: seq<T>)
    requires subs != []
    ensures RemovedAsWritten(subs, [0]).0 == subs[..|subs| - 1]
    ensures RemovedAsWritten(subs, [0]).1 == [Some(subs[|subs| - 1])]
  {
    var first := SpliceOne(subs, -1);
    assert first.0 == subs[..|subs| - 1] && first.1 == Some(subs[|subs| - 1]) by {
      assert subs[|subs|..] == [];
    }
    assert RemovedBefore(first.0, [0], 0).0 == first.0 && RemovedBefore(first.0, [0], 0).1 == [];
    assert [first.1] + [] == [first.1];
  }

  /**
   * Removing numbers 2 and 1 from three submissions as written takes the
   * first and then the third (the second has moved up to number 1), and
   * keeps the second, where the named submissions are the first two.
   */
  lemma {:induction false} SmallestFirstRemovesWrongEntry<T>(a: T, b: T, c: T)
    requires b != c
    ensures RemovedAsWritten([a, b, c], [2, 1]).0 == [b]
    ensures RemovedAsWritten([a, b, c], [2, 1]).1 == [Some(a), Some(c)]
    ensures Remaining([a, b, c], {1, 2}) == [c] != RemovedAsWritten([a, b, c], [2, 1]).0
  {
    var s, bc := [a, b, c], [b, c];
    var idx: seq<int> := [2, 1];
    assert SpliceOne(s, 0).0 == bc && SpliceOne(s, 0).1 == Some(a) by {
      assert s[..0] + s[1..] == bc;
    }
    assert SpliceOne(bc, 1).0 == [b] && SpliceOne(bc, 1).1 == Some(c) by {
      assert bc[..1] + bc[2..] == [b];
    }
    assert RemovedBefore([b], idx, 0).0 == [b] && RemovedBefore([b], idx, 0).1 == [];
    assert RemovedBefore(bc, idx, 1).0 == [b] && RemovedBefore(bc, idx, 1).1 == [Some(c)];
    KeepsThird(a, b, c);
  }

  lemma {:induction false} KeepsThird<T>(a: T, b: T, c: T)
    ensures Remaining([a, b, c], {1, 2}) == [c]
  {
    assert RemainingFrom([c], {1, 2}, 2) == [c];
    assert RemainingFrom([b, c], {1, 2}, 1) == [c];
  }

  /** Largest-first removal of numbers 2 and 1 takes the second and then the first, and keeps the third. */
  lemma {:induction false} LargestFirstKeepsThird<T>(a: T, b: T, c: T)
    ensures RemovedLargestFirst([a, b, c], [2, 1]).0 == [c]
    ensures RemovedLargestFirst([a, b, c], [2, 1]).1 == [Some(b), Some(a)]
  {
    var s, ac := [a, b, c], [a, c];
    var idx: seq<int> := [2, 1];
    assert idx[1..] == [1] && [1][1..] == [];
    assert SpliceOne(s, 1).0 == ac && SpliceOne(s, 1).1 == Some(b) by {
      assert s[..1] + s[2..] == ac;
    }
    assert SpliceOne(ac, 0).0 == [c] && SpliceOne(ac, 0).1 == Some(a) by {
      assert ac[..0] + ac[1..] == [c];
    }
    assert RemovedLargestFirst(ac, [1]).0 == [c] && RemovedLargestFirst(ac, [1]).1 == [Some(a)];
  }

  /**
   * Removing numbers 3 and 2 from three submissions as written finds no
   * third entry once the second is gone, so an accepted list gains an
   * undefined entry.
   */
  lemma {:induction false} SmallestFirstTakesNothing<T>(a: T, b: T, c: T)
    ensures RemovedAsWritten([a, b, c], [3, 2]).0 == [a, c]
    ensures RemovedAsWritten([a, b, c], [3, 2]).1 == [Some(b), None]
  {
    var s, ac := [a, b, c], [a, c];
    var idx: seq<int> := [3, 2];
    assert s[..1] + s[2..] == ac;
    assert SpliceOne(s, 1).0 == ac && SpliceOne(s, 1).1 == Some(b);
    assert SpliceOne(ac, 2).0 == ac && SpliceOne(ac, 2).1 == None;
    assert RemovedBefore(ac, idx, 0).0 == ac && RemovedBefore(ac, idx, 0).1 == [];
    assert RemovedBefore(ac, idx, 1).0 == ac && RemovedBefore(ac, idx, 1).1 == [None];
  }

  /**
   * The removal loop of the accept and reject commands: from the last
   * chosen number to the first, each splice lands on the list the
   * previous one left, and what it returns is collected.
   */
  method RemoveAsWritten<T>(subs: seq<T>, idx: seq<int>) returns (rest: seq<T>, taken: seq<Option<T>>)
    ensures rest == RemovedAsWritten(subs, idx).0 && taken == RemovedAsWritten(subs, idx).1
  {
    rest, taken := subs, [];
    var i := |idx|;
    while i > 0
      invariant 0 <= i <= |idx|
      invariant RemovedAsWritten(subs, idx).0 == RemovedBefore(rest, idx, i).0
      invariant RemovedAsWritten(subs, idx).1 == taken + RemovedBefore(rest, idx, i).1
    {
      i := i - 1;
      var r := SpliceOne(rest, idx[i] - 1);
      var later := RemovedBefore(r.0, idx, i).1;
      assert taken + ([r.1] + later) == (taken + [r.1]) + later;
      rest, taken := r.0, taken + [r.1];
    }
  }

  // ---------------------------------------------------------------------
  // The accept and reject commands

  /** What an accept or reject command did. */
  datatype ReviewResult = NotHandled | MovedAll | NotAnIndexList | NoValidIndices | Moved(count: nat)

  /** The submission numbers an index list names for `len` submissions, from the largest down, once each. */
  function ChosenIndices(pieces: seq<Piece>, len: nat): seq<int> {
    Normalized(ExpandedFrom(pieces, 0, len))
  }

  /** The numbers an index list names, as a set. */
  ghost function NamedSet(pieces: seq<Piece>, len: nat): set<int> {
    set x | 0 <= x <= len && NamedFrom(pieces, 0, len, x)
  }

  /** The chosen numbers are the named ones, from the largest down, none repeated, none above the list's length. */
  lemma {:induction false} ChosenNamed(pieces: seq<Piece>, len: nat)
    ensures Decreasing(ChosenIndices(pieces, len))
    ensures (set x | x in ChosenIndices(pieces, len)) == NamedSet(pieces, len)
    ensures forall x :: x in ChosenIndices(pieces, len) ==> 0 <= x <= len
  {
    var expanded := ExpandedFrom(pieces, 0, len);
    NormalizedSpec(expanded);
    forall x ensures x in ChosenIndices(pieces, len) <==> 0 <= x <= len && NamedFrom(pieces, 0, len, x) {
      ExpandedNamed(pieces, 0, len, x);
      if NamedFrom(pieces, 0, len, x) {
        NamedBounds(pieces, 0, len, x);
      }
    }
  }

  /**
   * The new question list, the new review list and the result of an
   * accept (`accepting`) or reject command: an empty argument is not
   * handled, "all" moves or drops every submission, anything else must
   * be an index list naming at least one submission. The named
   * submissions are removed as the loop is written, the smallest number
   * first on a list that shrinks as it goes, and an accept appends what
   * every splice returned, an `undefined` entry for a splice past the end.
   */
  function ReviewOf(questions: seq<Entry>, subs: seq<Question>, target: string, accepting: bool): (ReviewResult, seq<Entry>, seq<Question>) {
    if target == [] then (NotHandled, questions, subs)
    else if ToId(target) == "all" then (MovedAll, if accepting then questions + Wrap(subs) else questions, [])
    else match ParseIndexList(target)
      case None => (NotAnIndexList, questions, subs)
      case Some(pieces) =>
        var idx := ChosenIndices(pieces, |subs|);
        if idx == [] then (NoValidIndices, questions, subs)
        else
          var removed := RemovedAsWritten(subs, idx);
          (Moved(|idx|), if accepting then questions + removed.1 else questions, removed.0)
  }

  /**
   * The accept and reject commands as evidently intended: the named
   * submissions are removed largest number first, so every number names
   * the submission it showed, and only submissions are appended.
   */
  function IntendedReviewOf(questions: seq<Question>, subs: seq<Question>, target: string, accepting: bool): (ReviewResult, seq<Question>, seq<Question>) {
    if target == [] then (NotHandled, questions, subs)
    else if ToId(target) == "all" then (MovedAll, if accepting then questions + subs else questions, [])
    else match ParseIndexList(target)
      case None => (NotAnIndexList, questions, subs)
      case Some(pieces) =>
        var idx := ChosenIndices(pieces, |subs|);
        if idx == [] then (NoValidIndices, questions, subs)
        else
          var removed := RemovedLargestFirst(subs, idx);
          (Moved(|idx|), if accepting then questions + Present(removed.1) else questions, removed.0)
  }

  /** Accept or reject submissions named by `target`. */
  method Review(store: Store, target: string, accepting: bool) returns (r: ReviewResult)
    modifies store`questions, store`submissions
    ensures var after := ReviewOf(old(store.questions), old(store.submissions), target, accepting);
      r == after.0 && store.questions == after.1 && store.submissions == after.2
  {
    if target == [] {
      return NotHandled;
    }
    var subs := store.submissions;
    if ToId(target) == "all" {
      if accepting {
        store.questions := store.questions + Wrap(subs);
      }
      store.submissions := [];
      return MovedAll;
    }
    var parsed := ParseIndexList(target);
    if parsed.None? {
      return NotAnIndexList;
    }
    var expanded := ExpandIndices(parsed.value, |subs|);
    var idx := Normalized(expanded);
    if idx == [] {
      return NoValidIndices;
    }
    var rest, accepted := RemoveAsWritten(subs, idx);
    if accepting {
      store.questions := store.questions + accepted;
    }
    store.submissions := rest;
    r := Moved(|idx|);
  }

  lemma {:induction false} PresentAll<T>(taken: seq<Option<T>>, items: seq<T>)
    requires |taken| == |items| && forall j :: 0 <= j < |taken| ==> taken[j] == Some(items[j])
    ensures Present(taken) == items
  {
    if taken != [] {
      PresentAll(taken[1..], items[1..]);
      assert items == [items[0]] + items[1..];
    }
  }

  /** The submissions a chosen index list takes, in its order. */
  function Picked(subs: seq<Question>, idx: seq<int>): seq<Question>
    requires forall j :: 0 <= j < |idx| ==> 1 <= idx[j] <= |subs|
  {
    seq(|idx|, j requires 0 <= j < |idx| => subs[idx[j] - 1])
  }

  /** When 0 is not named, the chosen numbers can be removed one after the other. */
  lemma {:induction false} ChosenRemovable(pieces: seq<Piece>, len: nat)
    requires !NamedFrom(pieces, 0, len, 0)
    ensures RemovableOrder(ChosenIndices(pieces, len), len)
    ensures (set x | x in ChosenIndices(pieces, len)) == NamedSet(pieces, len)
  {
    var idx := ChosenIndices(pieces, len);
    ChosenNamed(pieces, len);
    assert forall j :: 0 <= j < |idx| ==> idx[j] in idx;
    assert 0 !in NamedSet(pieces, len);
  }

  /**
   * Removal by the numbers an index list names, when it does not name 0,
   * keeps exactly the submissions not named and takes the named ones, the
   * largest number first.
   */
  lemma {:induction false} ChosenRemoval(subs: seq<Question>, pieces: seq<Piece>)
    requires !NamedFrom(pieces, 0, |subs|, 0)
    ensures var idx := ChosenIndices(pieces, |subs|);
      (forall j :: 0 <= j < |idx| ==> 1 <= idx[j] <= |subs|) &&
      RemovedLargestFirst(subs, idx).0 == Remaining(subs, NamedSet(pieces, |subs|)) &&
      Present(RemovedLargestFirst(subs, idx).1) == Picked(subs, idx)
  {
    var idx := ChosenIndices(pieces, |subs|);
    ChosenRemovable(pieces, |subs|);
    LargestFirstLeaves(subs, idx);
    LargestFirstTakes(subs, idx);
    PresentAll(RemovedLargestFirst(subs, idx).1, Picked(subs, idx));
  }

  /**
   * The intended accept or reject by an index list that does not name 0
   * keeps exactly the submissions not named, and an accept appends the
   * named ones, the largest number first.
   */
  lemma {:induction false} IntendedRemovesNamed(questions: seq<Question>, subs: seq<Question>, target: string, accepting: bool, pieces: seq<Piece>)
    requires target != [] && ToId(target) != "all" && ParseIndexList(target) == Some(pieces)
    requires !NamedFrom(pieces, 0, |subs|, 0)
    requires NamedSet(pieces, |subs|) != {}
    ensures var after := IntendedReviewOf(questions, subs, target, accepting);
      var idx := ChosenIndices(pieces, |subs|);
      after.0 == Moved(|NamedSet(pieces, |subs|)|) &&
      after.2 == Remaining(subs, NamedSet(pieces, |subs|)) &&
      (forall j :: 0 <= j < |idx| ==> 1 <= idx[j] <= |subs|) &&
      after.1 == questions + (if accepting then Picked(subs, idx) else [])
  {
    var idx := ChosenIndices(pieces, |subs|);
    ChosenNamed(pieces, |subs|);
    ChosenRemoval(subs, pieces);
    DecreasingCount(idx);
  }

  /**
   * An index list that names exactly one submission removes that one, and
   * an accept appends it: with a single number the order of removal does
   * not matter.
   */
  lemma {:induction false} ReviewRemovesNamed(questions: seq<Entry>, subs: seq<Question>, target: string, accepting: bool, pieces: seq<Piece>, p: int)
    requires target != [] && ToId(target) != "all" && ParseIndexList(target) == Some(pieces)
    requires NamedSet(pieces, |subs|) == {p} && p != 0
    ensures 1 <= p <= |subs|
    ensures var after := ReviewOf(questions, subs, target, accepting);
      after.0 == Moved(1) && after.2 == subs[..p - 1] + subs[p..] &&
      after.1 == questions + (if accepting then [Some(subs[p - 1])] else [])
  {
    SingleChosen(pieces, |subs|, p);
    AsWrittenOne(subs, p);
    var removed := RemovedAsWritten(subs, [p]);
    var after := ReviewOf(questions, subs, target, accepting);
    assert after.0 == Moved(1) && after.2 == removed.0;
    assert after.1 == if accepting then questions + removed.1 else questions;
    assert questions + [] == questions;
  }

  /** An index list that names one number chooses that number alone. */
  lemma {:induction false} SingleChosen(pieces: seq<Piece>, len: nat, p: int)
    requires NamedSet(pieces, len) == {p}
    ensures 0 <= p <= len && ChosenIndices(pieces, len) == [p]
  {
    var idx := ChosenIndices(pieces, len);
    ChosenNamed(pieces, len);
    DecreasingCount(idx);
    assert p in NamedSet(pieces, len);
    assert |idx| == 1;
    assert idx[0] in idx;
  }

  /** A list with no repeats has as many entries as its set of entries. */
  lemma {:induction false} DecreasingCount(s: seq<int>)
    requires Decreasing(s)
    ensures |set x | x in s| == |s|
  {
    if s != [] {
      DecreasingCount(s[1..]);
      assert (set x | x in s) == (set x | x in s[1..]) + {s[0]};
      assert s[0] !in s[1..];
    }
  }

  /** An index list that names nothing in range is refused without change. */
  lemma {:induction false} ReviewNothingNamed(questions: seq<Entry>, subs: seq<Question>, target: string, accepting: bool, pieces: seq<Piece>)
    requires target != [] && ToId(target) != "all" && ParseIndexList(target) == Some(pieces)
    requires NamedSet(pieces, |subs|) == {}
    ensures ReviewOf(questions, subs, target, accepting) == (NoValidIndices, questions, subs)
  {
    ChosenNamed(pieces, |subs|);
    DecreasingCount(ChosenIndices(pieces, |subs|));
  }

  lemma {:induction false} ParseOneToZero()
    ensures ParseIndexList("1-0") == Some([Span(1, 0)])
    ensures ToId("1-0") != "all"
  {
    var halves := ["1", "0"];
    assert Join(halves, '-') == "1-0";
    SplitJoin(halves, '-');
    assert ParsePiece("1-0") == Some(Span(1, 0)) by {
      assert Value("1") == 1 by { assert "1"[..0] == []; }
      assert Value("0") == 0 by { assert "0"[..0] == []; }
    }
    assert SplitOn("1-0", ',') == ["1-0"] by {
      SplitJoin(["1-0"], ',');
      assert Join(["1-0"], ',') == "1-0";
    }
    var parts := ["1-0"];
    assert parts[0] == "1-0" && parts[1..] == [];
    assert ParseParts(parts[1..], false) == Some([]);
    assert [Span(1, 0)] + [] == [Span(1, 0)];
    assert "1-0"[1..] == "-0" && ToId("1-0") == "1" + ToId("-0");
  }

  /**
   * A downward range ending at 0 names 0 even when there are no
   * submissions, so "1-0" on an empty review list is carried out as a
   * removal of one submission that takes nothing, and an accept appends
   * an `undefined` entry to the question list.
   */
  lemma {:induction false} ZeroOnEmptyList(questions: seq<Entry>, accepting: bool)
    ensures ReviewOf(questions, [], "1-0", accepting) == (Moved(1), questions + (if accepting then [None] else []), [])
  {
    OneToZeroChosen();
    NothingAtZero<Question>();
    var after := ReviewOf(questions, [], "1-0", accepting);
    assert after.0 == Moved(1) && after.2 == [];
    assert after.1 == if accepting then questions + [None] else questions;
    assert questions + [] == questions;
  }

  /** "1-0" is an index list, not "all", and on an empty review list it chooses 0. */
  lemma {:induction false} OneToZeroChosen()
    ensures ParseIndexList("1-0") == Some([Span(1, 0)]) && ToId("1-0") != "all"
    ensures ChosenIndices([Span(1, 0)], 0) == [0]
  {
    ParseOneToZero();
    assert ExpandedFrom([Span(1, 0)], 0, 0) == [0];
  }

  /** Removing number 0 from an empty list takes `undefined`. */
  lemma {:induction false} NothingAtZero<T>()
    ensures var none: seq<T> := []; RemovedAsWritten(none, [0]).0 == [] && RemovedAsWritten(none, [0]).1 == [None]
  {
    var none: seq<T> := [];
    assert SpliceOne(none, -1) == (none, None);
    assert RemovedBefore(none, [0], 0).0 == [] && RemovedBefore(none, [0], 0).1 == [];
  }

  /**
   * Accepting keeps the question list in front and appends one entry per
   * chosen number; the defined entries appended and the submissions kept
   * are exactly the submissions there were.
   */
  lemma {:induction false} AcceptConserves(questions: seq<Entry>, subs: seq<Question>, target: string)
    ensures var after := ReviewOf(questions, subs, target, true);
      |questions| <= |after.1| && after.1[..|questions|] == questions &&
      (after.0.Moved? ==> |after.1| == |questions| + after.0.count) &&
      multiset(Present(after.1[|questions|..])) + multiset(after.2) == multiset(subs)
  {
    var after := ReviewOf(questions, subs, target, true);
    if target != [] && ToId(target) == "all" {
      PresentWrap(subs);
      assert after.1[|questions|..] == Wrap(subs);
    } else if target != [] && ParseIndexList(target).Some? && ChosenIndices(ParseIndexList(target).value, |subs|) != [] {
      var idx := ChosenIndices(ParseIndexList(target).value, |subs|);
      AsWrittenConserves(subs, idx);
      assert after.1[|questions|..] == RemovedAsWritten(subs, idx).1;
    } else {
      assert after.1[|questions|..] == [];
    }
  }

  /** Rejecting leaves the question list alone and only drops submissions. */
  lemma {:induction false} RejectOnlyDrops(questions: seq<Entry>, subs: seq<Question>, target: string)
    ensures var after := ReviewOf(questions, subs, target, false);
      after.1 == questions && multiset(after.2) <= multiset(subs)
  {
    match ParseIndexList(target)
    case None =>
    case Some(pieces) =>
      AsWrittenConserves(subs, ChosenIndices(pieces, |subs|));
  }

  // ---------------------------------------------------------------------
  // The add and submit commands

  /** The category ids a question can have; "random" is only a game setting. */
  const Categories: set<string> := {
    "animemanga", "geography", "history", "humanities", "miscellaneous", "music",
    "pokemon", "rpm", "science", "sports", "tvmovies", "videogames", "random"
  }

  /**
   * Whether a lookup of `id` in the category table finds something: the
   * table's own ids, and "constructor", which every object inherits and
   * no other lower-case id names.
   */
  predicate CategoryKnown(id: string) {
    id in Categories || id == "constructor"
  }

  /** Why an add or submit command stored nothing. */
  datatype Refusal = Ignored | BadArguments | BadCategory | BadQuestion | NoAnswers

  /** The question a `category|question|answers` argument describes, or why there is none. */
  datatype Reading = Refused(why: Refusal) | Read(q: Question)

  /**
   * Reading the argument: it must have exactly three `|`-separated fields;
   * the category id must be known to the category table and not "random"
   * (which is silently not handled); the question is the trimmed second
   * field and must not be empty; the answers are the answer ids of the
   * third, the first occurrence of each, an empty id included.
   */
  function ReadSubmission(target: string): Reading {
    if target == [] then Refused(Ignored)
    else
      var fields := SplitOn(target, '|');
      if |fields| != 3 then Refused(BadArguments)
      else
        var category := ToId(fields[0]);
        if category == "random" then Refused(Ignored)
        else if !CategoryKnown(category) then Refused(BadCategory)
        else
          var text := Trim(fields[1]);
          if text == [] then Refused(BadQuestion)
          else
            var answers := KeepFirst(AnswerIds(fields[2]));
            if answers == [] then Refused(NoAnswers)
            else Read(Question(category, text, answers))
  }

  /**
   * A question is read exactly when the argument has three fields, a
   * category the table knows other than "random", and a question with a
   * non-space character; the answers read are every id of the answer
   * field once, in the order each first occurs, so there is always one.
   */
  lemma {:induction false} ReadSubmissionSpec(target: string)
    ensures var fields := SplitOn(target, '|');
      ReadSubmission(target).Read? <==>
        (|fields| == 3 && ToId(fields[0]) != "random" && CategoryKnown(ToId(fields[0])) && Trim(fields[1]) != [])
    ensures ReadSubmission(target).Read? ==>
      var q := ReadSubmission(target).q;
      var fields := SplitOn(target, '|');
      q.category == ToId(fields[0]) && q.text == Trim(fields[1]) && q.text != [] &&
      q.answers == KeepFirst(AnswerIds(fields[2])) && q.answers != [] && Distinct(q.answers) &&
      (forall x :: x in q.answers <==> x in AnswerIds(fields[2]))
  {
    if target == [] {
      assert SplitOn(target, '|') == [[]];
    }
    var fields := SplitOn(target, '|');
    if |fields| == 3 {
      AnswersNeverEmpty(fields[2]);
      KeepFirstMembers(AnswerIds(fields[2]));
    }
  }

  /** What an add or submit command did. */
  datatype AddResult = Refuse(why: Refusal) | Added | Submitted

  /**
   * Add a question directly to the database (`direct`) or submit it to
   * the review list at its category's place.
   */
  method Add(store: Store, target: string, direct: bool) returns (r: AddResult)
    modifies store`questions, store`submissions
    ensures var reading := ReadSubmission(target);
      r == (if reading.Refused? then Refuse(reading.why) else if direct then Added else Submitted)
    ensures var reading := ReadSubmission(target);
      store.questions == old(store.questions) + (if reading.Read? && direct then [Some(reading.q)] else [])
    ensures var reading := ReadSubmission(target);
      store.submissions == if reading.Read? && !direct then Inserted(old(store.submissions), reading.q) else old(store.submissions)
  {
    if target == [] {
      return Refuse(Ignored);
    }
    var fields := SplitOn(target, '|');
    if |fields| != 3 {
      return Refuse(BadArguments);
    }
    var category := ToId(fields[0]);
    if category == "random" {
      return Refuse(Ignored);
    }
    if !CategoryKnown(category) {
      return Refuse(BadCategory);
    }
    var text := Trim(fields[1]);
    if text == [] {
      return Refuse(BadQuestion);
    }
    var answers := DedupAnswers(AnswerIds(fields[2]));
    if answers == [] {
      return Refuse(NoAnswers);
    }
    var q := Question(category, text, answers);
    if direct {
      store.questions := store.questions + [Some(q)];
      return Added;
    }
    SubmitForReview(store, q);
    r := Submitted;
  }

  /** Submitting keeps a category-ordered review list ordered and adds exactly the new question. */
  lemma {:induction false} SubmitKeepsOrder(subs: seq<Question>, target: string)
    requires CategorySorted(subs) && ReadSubmission(target).Read?
    ensures CategorySorted(Inserted(subs, ReadSubmission(target).q))
    ensures multiset(Inserted(subs, ReadSubmission(target).q)) == multiset(subs) + multiset{ReadSubmission(target).q}
  {
    InsertedSorted(subs, ReadSubmission(target).q);
    InsertedAdds(subs, ReadSubmission(target).q);
  }
}
