/** Gathering the details of one dictionary into another one under names that do not
    collide. */
module Details {
  import opened Prelude

  type Id = int

  /** A detail: what identifies its content, and the bytes, unless reading them fails. */
  datatype Content = Content(id: Id, bytes: Option<string>)

  type Dict = map<string, Content>

  // ---------------------------------------------------------------- numbered names

  function Digit(d: nat): char
    requires d < 10
  {
    "0123456789"[d]
  }

  function Decimal(n: nat): (s: string)
    ensures s != ""
  {
    if n < 10 then [Digit(n)] else Decimal(n / 10) + [Digit(n % 10)]
  }

  lemma DigitIsInjective(d: nat, e: nat)
    requires d < 10 && e < 10 && Digit(d) == Digit(e)
    ensures d == e
  {
  }

  lemma {:induction false} DecimalIsInjective(m: nat, n: nat)
    requires Decimal(m) == Decimal(n)
    ensures m == n
  {
    var s, t := Decimal(m), Decimal(n);
    if m < 10 && n < 10 {
      DigitIsInjective(m, n);
    } else if m >= 10 && n >= 10 {
      assert s[..|s| - 1] == Decimal(m / 10) && t[..|t| - 1] == Decimal(n / 10);
      assert s[|s| - 1] == Digit(m % 10) && t[|t| - 1] == Digit(n % 10);
      DecimalIsInjective(m / 10, n / 10);
      DigitIsInjective(m % 10, n % 10);
    }
  }

  /** The name tried after `k` collisions. */
  function Candidate(name: string, k: nat): string {
    if k == 0 then name else name + "-" + Decimal(k)
  }

  lemma CandidatesDiffer(name: string, j: nat, k: nat)
    requires Candidate(name, j) == Candidate(name, k)
    ensures j == k
  {
    if j > 0 && k > 0 {
      var prefix := name + "-";
      assert (prefix + Decimal(j))[|prefix|..] == Decimal(j);
      assert (prefix + Decimal(k))[|prefix|..] == Decimal(k);
      DecimalIsInjective(j, k);
    }
  }

  /** What a text says as a decimal number. */
  function NumberOf(text: string): int {
    if text == "" then 0 else 10 * NumberOf(text[..|text| - 1]) + text[|text| - 1] as int - '0' as int
  }

  predicate IsDigit(c: char) {
    '0' <= c <= '9'
  }

  /** A number is written in decimal digits, and without a leading zero. */
  lemma {:induction false} DecimalSaysTheNumber(n: nat)
    ensures NumberOf(Decimal(n)) == n
    ensures forall c :: c in Decimal(n) ==> IsDigit(c)
    ensures n > 0 ==> Decimal(n)[0] != '0'
  {
    if n < 10 {
      assert Decimal(n)[..0] == "" && Decimal(n)[0] == Digit(n);
    } else {
      var text := Decimal(n);
      DecimalSaysTheNumber(n / 10);
      assert text[..|text| - 1] == Decimal(n / 10) && text[|text| - 1] == Digit(n % 10);
    }
  }

  /** The candidates are the name, and the name and a dash before a number. */
  lemma CandidateNames(name: string, k: nat)
    ensures Candidate(name, 0) == name
    ensures k > 0 ==> exists digits :: Candidate(name, k) == name + "-" + digits && NumberOf(digits) == k
  {
    DecimalSaysTheNumber(k);
  }

  /** The candidate is free, or holds the same content already. */
  predicate Fits(target: Dict, name: string, id: Id) {
    name !in target || target[name].id == id
  }

  ghost predicate IsUniqueName(target: Dict, name: string, id: Id, newName: string, k: nat) {
    && newName == Candidate(name, k) && Fits(target, newName, id)
    && forall j: nat :: j < k ==> !Fits(target, Candidate(name, j), id)
  }

  /** The first `k` candidates were tried, and are taken by other contents. */
  ghost predicate Tried(target: Dict, name: string, id: Id, tried: set<string>, k: nat) {
    && (forall j: nat :: j < k ==> Candidate(name, j) in tried && !Fits(target, Candidate(name, j), id))
    && (forall t :: t in tried ==> exists j: nat :: j < k && t == Candidate(name, j))
    && tried <= target.Keys && |tried| == k
  }

  /** Another candidate that is taken is none of those before, so the target is larger than
      what was tried. */
  lemma TryAnother(target: Dict, name: string, id: Id, tried: set<string>, k: nat)
    requires Tried(target, name, id, tried, k) && Candidate(name, k) in target
    ensures k < |target|
    ensures !Fits(target, Candidate(name, k), id) ==> Tried(target, name, id, tried + {Candidate(name, k)}, k + 1)
  {
    var candidate := Candidate(name, k);
    if candidate in tried {
      var j: nat :| j < k && candidate == Candidate(name, j);
      CandidatesDiffer(name, j, k);
      assert false;
    }
    SubsetSize(tried + {candidate}, target.Keys);
  }

  lemma SubsetSize(a: set<string>, b: set<string>)
    requires a <= b
    ensures |a| <= |b|
  {
    assert b == a + (b - a);
  }

  /** Tries numbered names until one fits.  The names tried differ, so there is one that
      the finite target does not hold. */
  method GetUniqueDetailName(name: string, id: Id, target: Dict) returns (newName: string, ghost k: nat)
    ensures IsUniqueName(target, name, id, newName, k) && k <= |target|
    ensures Fits(target, newName, id) && name <= newName
  {
    var disambiguator := 1;
    newName := name;
    k := 0;
    ghost var tried: set<string> := {};
    while newName in target
      invariant disambiguator == k + 1 && newName == Candidate(name, k)
      invariant Tried(target, name, id, tried, k) && k <= |target|
      decreases |target| - k
    {
      TryAnother(target, name, id, tried, k);
      if id == target[newName].id { break; }
      tried := tried + {newName};
      newName := name + "-" + Decimal(disambiguator);
      disambiguator := disambiguator + 1;
      k := k + 1;
    }
  }

  // ---------------------------------------------------------------- gathering

  /** The target holds this content under the detail's name or a numbered one. */
  ghost predicate Holds(target: Dict, name: string, content: Content) {
    exists k: nat :: Candidate(name, k) in target && target[Candidate(name, k)].id == content.id
  }

  /** Gathering this detail would add nothing: its content cannot be read, or the first
      candidate that fits holds it already. */
  ghost predicate Settled(target: Dict, name: string, content: Content) {
    content.bytes.Some? ==>
      exists k: nat :: IsUniqueName(target, name, content.id, Candidate(name, k), k) && Candidate(name, k) in target
  }

  ghost predicate Extends(before: Dict, after: Dict) {
    forall n :: n in before ==> n in after && after[n] == before[n]
  }

  lemma SettledStays(before: Dict, after: Dict, name: string, content: Content)
    requires Extends(before, after) && Settled(before, name, content)
    ensures Settled(after, name, content)
  {
  }

  /** Every new entry is a copy of one of the gathered details, under its name or a
      numbered one. */
  ghost predicate OnlyCopies(before: Dict, after: Dict, source: seq<(string, Content)>) {
    forall n :: n in after && n !in before ==>
      exists i, k: nat :: 0 <= i < |source| && n == Candidate(source[i].0, k) && after[n] == source[i].1
  }

  /** The effect of gathering one detail, whose unique name is `newName`. */
  function Added(target: Dict, newName: string, content: Content): Dict {
    if newName in target || content.bytes.None? then target else target[newName := content]
  }

  lemma AddedIsSettled(before: Dict, name: string, content: Content, newName: string, k: nat)
    requires IsUniqueName(before, name, content.id, newName, k)
    ensures var after := Added(before, newName, content);
            && Extends(before, after) && Settled(after, name, content)
            && (Settled(before, name, content) ==> after == before)
  {
  }

  lemma SettledHolds(target: Dict, name: string, content: Content)
    requires Settled(target, name, content) && content.bytes.Some?
    ensures Holds(target, name, content)
  {
  }

  ghost predicate AllSettled(target: Dict, source: seq<(string, Content)>) {
    forall i :: 0 <= i < |source| ==> Settled(target, source[i].0, source[i].1)
  }

  class Target {
    var details: Dict

    method GatherOne(name: string, content: Content) returns (ghost newName: string, ghost k: nat)
      modifies this
      ensures IsUniqueName(old(details), name, content.id, newName, k)
      ensures details == Added(old(details), newName, content)
    {
      var unique;
      unique, k := GetUniqueDetailName(name, content.id, details);
      newName := unique;
      if unique !in details {
        if content.bytes.Some? {
          details := details[unique := content];
        }
      }
    }

    /** `source` lists the items of the source dictionary.  Existing entries do not change,
        every detail ends up held if its content can be read, and gathering the same source
        again changes nothing. */
    method GatherDetails(source: seq<(string, Content)>)
      modifies this
      ensures Extends(old(details), details) && OnlyCopies(old(details), details, source)
      ensures AllSettled(details, source)
      ensures AllSettled(old(details), source) ==> details == old(details)
    {
      var i := 0;
      while i < |source|
        invariant 0 <= i <= |source|
        invariant Extends(old(details), details) && OnlyCopies(old(details), details, source)
        invariant AllSettled(details, source[..i])
        invariant AllSettled(old(details), source) ==> details == old(details)
      {
        var (name, content) := source[i];
        ghost var before := details;
        ghost var newName, k := GatherOne(name, content);
        AddedIsSettled(before, name, content, newName, k);
        forall j | 0 <= j < i
          ensures Settled(details, source[j].0, source[j].1)
        {
          assert source[..i][j] == source[j];
          SettledStays(before, details, source[j].0, source[j].1);
        }
        assert source[i] == (name, content);
        i := i + 1;
      }
      assert source[..i] == source;
    }
  }
}
