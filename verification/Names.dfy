/**
  Names of nodes: characters that may not be part of an address are replaced, and a name that a
  sibling has already is given an instance number.
 */
module Names {
  import opened Common

  const INT_MAX: int := 0x7fff_ffff
  const INT_MIN: int := -0x8000_0000

  // ------------------------------------------------------------------ numbers

  predicate IsDigit(c: char) {
    '0' <= c <= '9'
  }

  function Digit(d: nat): (c: char)
    requires d < 10
    ensures IsDigit(c) && c as int - '0' as int == d
  {
    '0' + d as char
  }

  function PrintNat(n: nat): (s: string)
    ensures s != [] && forall i :: 0 <= i < |s| ==> IsDigit(s[i])
  {
    if n < 10 then [Digit(n)] else PrintNat(n / 10) + [Digit(n % 10)]
  }

  /** `QString::number` and `std::to_string`. */
  function Print(k: int): string {
    if k < 0 then "-" + PrintNat(-k) else PrintNat(k)
  }

  predicate AllDigits(s: string) {
    s != [] && forall i :: 0 <= i < |s| ==> IsDigit(s[i])
  }

  function NatValue(s: string): nat
    requires forall i :: 0 <= i < |s| ==> IsDigit(s[i])
  {
    if s == [] then 0
    else
      assert IsDigit(s[|s| - 1]);
      10 * NatValue(s[..|s| - 1]) + (s[|s| - 1] as int - '0' as int)
  }

  lemma {:induction false} PrintedNat(n: nat)
    ensures NatValue(PrintNat(n)) == n
  {
    if n >= 10 {
      PrintedNat(n / 10);
      assert PrintNat(n)[..|PrintNat(n)| - 1] == PrintNat(n / 10);
    } else {
      assert PrintNat(n)[..0] == [];
    }
  }

  predicate IsSpace(c: char) {
    c == ' ' || '\t' <= c <= '\r'
  }

  function TrimLeft(s: string): string {
    if s != [] && IsSpace(s[0]) then TrimLeft(s[1..]) else s
  }

  function TrimRight(s: string): string {
    if s != [] && IsSpace(s[|s| - 1]) then TrimRight(s[..|s| - 1]) else s
  }

  /** `QString::toInt`: blanks around the number are skipped, a sign is optional, and the value
      must fit. */
  function ToInt(s: string): (r: Option<int>)
    ensures r.Some? ==> INT_MIN <= r.value <= INT_MAX
  {
    var t := TrimRight(TrimLeft(s));
    if t == [] then None
    else
      var negative := t[0] == '-';
      var digits := if t[0] == '-' || t[0] == '+' then t[1..] else t;
      if !AllDigits(digits) then None
      else
        var v: int := NatValue(digits);
        var v := if negative then -v else v;
        if INT_MIN <= v <= INT_MAX then Some(v) else None
  }

  /** What is printed is read back. */
  lemma PrintedInt(k: int)
    requires INT_MIN <= k <= INT_MAX
    ensures ToInt(Print(k)) == Some(k)
  {
    hide PrintNat, NatValue;
    var n: nat := if k < 0 then -k else k;
    PrintedNat(n);
    var s := Print(k);
    NothingToTrim(s);
    if k < 0 {
      assert s == ['-'] + PrintNat(n) && s[1..] == PrintNat(n);
    } else {
      assert s[0] != '-' && s[0] != '+';
    }
  }

  lemma NothingToTrim(s: string)
    requires s != [] && !IsSpace(s[0]) && !IsSpace(s[|s| - 1])
    ensures TrimRight(TrimLeft(s)) == s
  {
  }

  lemma {:induction false} BlanksInFront(a: string, t: string)
    requires t != [] && !IsSpace(t[0]) && forall i :: 0 <= i < |a| ==> IsSpace(a[i])
    ensures TrimLeft(a + t) == t
  {
    if a == [] {
      assert a + t == t;
    } else {
      assert (a + t)[1..] == a[1..] + t;
      BlanksInFront(a[1..], t);
    }
  }

  lemma {:induction false} BlanksBehind(t: string, b: string)
    requires t != [] && !IsSpace(t[|t| - 1]) && forall i :: 0 <= i < |b| ==> IsSpace(b[i])
    ensures TrimRight(t + b) == t
    decreases |b|
  {
    var s := t + b;
    if b == [] {
      assert s == t;
    } else {
      assert s[..|s| - 1] == t + b[..|b| - 1] && s[|s| - 1] == b[|b| - 1];
      BlanksBehind(t, b[..|b| - 1]);
    }
  }

  /** Blanks around a number do not count, nor does a plus sign. */
  lemma NumberIsRead(a: string, digits: string, b: string)
    requires AllDigits(digits)
    requires (forall i :: 0 <= i < |a| ==> IsSpace(a[i])) && (forall i :: 0 <= i < |b| ==> IsSpace(b[i]))
    ensures ToInt(a + digits + b) == ToInt(a + ("+" + digits) + b)
         == if NatValue(digits) <= INT_MAX then Some(NatValue(digits)) else None
    ensures ToInt(a + ("-" + digits) + b) == if NatValue(digits) <= -INT_MIN then Some(0 - NatValue(digits)) else None
  {
    hide NatValue, TrimLeft, TrimRight;
    Framed(a, digits, b);
    Framed(a, "+" + digits, b);
    Framed(a, "-" + digits, b);
    assert ("+" + digits)[1..] == digits && ("-" + digits)[1..] == digits;
  }

  lemma Framed(a: string, t: string, b: string)
    requires t != [] && !IsSpace(t[0]) && !IsSpace(t[|t| - 1])
    requires (forall i :: 0 <= i < |a| ==> IsSpace(a[i])) && (forall i :: 0 <= i < |b| ==> IsSpace(b[i]))
    ensures TrimRight(TrimLeft(a + t + b)) == t
  {
    assert a + t + b == a + (t + b);
    BlanksInFront(a, t + b);
    BlanksBehind(t, b);
  }

  // ------------------------------------------------------------------ instances

  predicate IsValidCharacterForName(c: char) {
    'a' <= c <= 'z' || 'A' <= c <= 'Z' || '0' <= c <= '9'
    || c in {'.', '~', '_', '(', ')', '-', ':', ' ', '='}
  }

  function Clean(name: string): (r: string)
    ensures |r| == |name|
    ensures forall i :: 0 <= i < |r| ==> IsValidCharacterForName(r[i])
    ensures forall i :: 0 <= i < |r| ==> r[i] == (if IsValidCharacterForName(name[i]) then name[i] else '_')
  {
    seq(|name|, i requires 0 <= i < |name| => if IsValidCharacterForName(name[i]) then name[i] else '_')
  }

  const NAME_CHARACTERS: string := "_~(): .-"

  /** Beside letters and digits these are the characters that the library documents, and one more. */
  lemma DocumentedCharacters(c: char)
    ensures IsValidCharacterForName(c) <==>
      'a' <= c <= 'z' || 'A' <= c <= 'Z' || '0' <= c <= '9' || c in NAME_CHARACTERS || c == '='
  {
  }

  /** The index of the last dot, -1 if there is none. */
  function LastDot(s: string): (p: int)
    ensures -1 <= p < |s|
    ensures p >= 0 ==> s[p] == '.'
    ensures forall i :: p < i < |s| ==> s[i] != '.'
  {
    if s == [] then -1
    else if s[|s| - 1] == '.' then |s| - 1
    else LastDot(s[..|s| - 1])
  }

  /** The "a" of "a.12". */
  function RootName(name: string): string {
    var p := LastDot(name);
    if p >= 0 && ToInt(name[p + 1..]).Some? then name[..p] else name
  }

  function InstanceOf(root: string, sibling: string): Option<int> {
    if |sibling| > |root| && sibling[..|root|] == root && sibling[|root|] == '.'
    then ToInt(sibling[|root| + 1..]) else None
  }

  /** The instance numbers of the siblings with this root. */
  function Instances(root: string, siblings: seq<string>): (r: seq<int>)
    ensures forall i :: 0 <= i < |r| ==> INT_MIN <= r[i] <= INT_MAX
  {
    if siblings == [] then []
    else
      var last := InstanceOf(root, siblings[|siblings| - 1]);
      Instances(root, siblings[..|siblings| - 1]) + (if last.Some? then [last.value] else [])
  }

  function Max(s: seq<int>): (m: int)
    requires s != []
    ensures m in s && forall i :: 0 <= i < |s| ==> s[i] <= m
  {
    if |s| == 1 then s[0]
    else
      var m := Max(s[..|s| - 1]);
      if s[|s| - 1] > m then s[|s| - 1] else m
  }

  /** One more than an int, as the machine computes it. */
  function Successor(n: int): int {
    if n == INT_MAX then INT_MIN else n + 1
  }

  function Numbered(root: string, n: int): string {
    root + "." + Print(n)
  }

  /** The name a node gets next to its siblings. */
  function Sanitized(name: string, siblings: seq<string>): string {
    var n := Clean(name);
    if n !in siblings then n
    else
      var root := RootName(n);
      var numbers := Instances(root, siblings);
      if NoneButZero(numbers) then root + ".1" else Numbered(root, Successor(Max(numbers)))
  }

  predicate NoneButZero(numbers: seq<int>) {
    |numbers| == 0 || (|numbers| == 1 && numbers[0] == 0)
  }

  function NextNumber(numbers: seq<int>): int {
    if NoneButZero(numbers) then 1 else Successor(Max(numbers))
  }

  // ------------------------------------------------------------------ freshness

  lemma NumberedIsInstance(root: string, n: int)
    requires INT_MIN <= n <= INT_MAX
    ensures InstanceOf(root, Numbered(root, n)) == Some(n)
  {
    var s := Numbered(root, n);
    assert s[..|root|] == root && s[|root| + 1..] == Print(n);
    PrintedInt(n);
  }

  lemma {:induction false} InstancesHas(root: string, siblings: seq<string>, s: string)
    requires s in siblings && InstanceOf(root, s).Some?
    ensures InstanceOf(root, s).value in Instances(root, siblings)
  {
    if s != siblings[|siblings| - 1] {
      assert siblings == siblings[..|siblings| - 1] + [siblings[|siblings| - 1]];
      InstancesHas(root, siblings[..|siblings| - 1], s);
    }
  }

  /** The number after the largest one of the siblings does not fit an int. */
  predicate Overflows(name: string, siblings: seq<string>) {
    var n := Clean(name);
    var numbers := Instances(RootName(n), siblings);
    n in siblings && numbers != [] && Max(numbers) == INT_MAX
  }

  /** The name is fresh, unless the counter runs over and the instance it then starts with
      exists already. */
  lemma SanitizedIsFresh(name: string, siblings: seq<string>)
    ensures Sanitized(name, siblings) !in siblings
        <==> !(Overflows(name, siblings) && Numbered(RootName(Clean(name)), INT_MIN) in siblings)
  {
    hide InstanceOf, Instances, Print, Clean, RootName, Max, Numbered;
    var n := Clean(name);
    if n in siblings {
      var root := RootName(n);
      var numbers := Instances(root, siblings);
      var next := NextNumber(numbers);
      FirstInstance(root);
      if Numbered(root, next) in siblings {
        NumberedIsInstance(root, next);
        InstancesHas(root, siblings, Numbered(root, next));
      }
    }
  }

  lemma FirstInstance(root: string)
    ensures root + ".1" == Numbered(root, 1)
  {
  }

  /** That happens to every plain name: next to it and its instances with the largest and the
      smallest number, it is given the name of the latter once more. */
  lemma FreshnessCanFail(name: string)
    requires Plain(name)
    ensures var siblings := [name, Numbered(name, INT_MAX), Numbered(name, INT_MIN)];
            Sanitized(name, siblings) == siblings[2] && Sanitized(name, siblings) in siblings
  {
    hide InstanceOf, ToInt, Numbered, Clean, RootName;
    var a, b, c := name, Numbered(name, INT_MAX), Numbered(name, INT_MIN);
    NoInstance(a);
    NumberedIsInstance(name, INT_MAX);
    NumberedIsInstance(name, INT_MIN);
    assert [a, b, c][..2] == [a, b] && [a, b][..1] == [a] && [a][..0] == [];
    assert Instances(name, [a]) == [];
    assert Instances(name, [a, b]) == [INT_MAX];
    assert Instances(name, [a, b, c]) == [INT_MAX, INT_MIN];
    assert [INT_MAX, INT_MIN][..1] == [INT_MAX];
    assert Max([INT_MAX, INT_MIN]) == INT_MAX;
  }

  lemma LetterCanFail()
    ensures var siblings := ["a", Numbered("a", INT_MAX), Numbered("a", INT_MIN)];
            Sanitized("a", siblings) in siblings
  {
    hide Sanitized, Numbered;
    assert Clean("a") == "a";
    assert "a"[..0] == "";
    FreshnessCanFail("a");
  }

  // ------------------------------------------------------------------ instance sequence

  /** The siblings after the same name was inserted `n` times. */
  function Grown(name: string, siblings: seq<string>, n: nat): seq<string> {
    if n == 0 then siblings
    else
      var before := Grown(name, siblings, n - 1);
      before + [Sanitized(name, before)]
  }

  function Nth(name: string, i: nat): string {
    if i == 0 then name else Numbered(name, i)
  }

  function Names(name: string, n: nat): (r: seq<string>)
    ensures |r| == n
  {
    seq(n, i requires 0 <= i < n => Nth(name, i))
  }

  function UpTo(n: nat): (r: seq<int>)
    ensures |r| == n && forall i :: 0 <= i < n ==> r[i] == i + 1
  {
    seq(n, i => i + 1)
  }

  /** A name without instance number, of valid characters only. */
  predicate Plain(name: string) {
    Clean(name) == name && RootName(name) == name
  }

  lemma NoInstance(name: string)
    ensures InstanceOf(name, name) == None
  {
  }

  lemma {:induction false} InstancesOfNames(name: string, siblings: seq<string>, n: nat)
    requires Instances(name, siblings) == [] && n <= INT_MAX
    ensures Instances(name, siblings + Names(name, n + 1)) == UpTo(n)
  {
    hide InstanceOf, Numbered, ToInt, Instances;
    assert Names(name, n + 1) == Names(name, n) + [Nth(name, n)];
    assert siblings + Names(name, n + 1) == siblings + Names(name, n) + [Nth(name, n)];
    OneMoreInstance(name, siblings + Names(name, n), Nth(name, n));
    if n == 0 {
      assert siblings + Names(name, 0) == siblings;
      NoInstance(name);
    } else {
      InstancesOfNames(name, siblings, n - 1);
      NumberedIsInstance(name, n);
      assert UpTo(n) == UpTo(n - 1) + [n];
    }
  }

  lemma OneMoreInstance(root: string, siblings: seq<string>, s: string)
    ensures Instances(root, siblings + [s])
         == Instances(root, siblings) + (if InstanceOf(root, s).Some? then [InstanceOf(root, s).value] else [])
  {
    hide InstanceOf;
    assert (siblings + [s])[..|siblings|] == siblings;
  }

  /** Inserting a plain name again and again gives name, name.1, name.2 and so on. */
  lemma {:induction false} InstanceSequence(name: string, siblings: seq<string>, n: nat)
    requires Plain(name) && name !in siblings && Instances(name, siblings) == [] && n <= INT_MAX
    ensures Grown(name, siblings, n + 1) == siblings + Names(name, n + 1)
  {
    hide Instances, InstanceOf, Print, Clean, RootName, Numbered, Sanitized;
    if n == 0 {
      FirstOne(name, siblings);
      assert Names(name, 1) == [name];
    } else {
      InstanceSequence(name, siblings, n - 1);
      var before := siblings + Names(name, n);
      InstancesOfNames(name, siblings, n - 1);
      assert before[|siblings|] == Nth(name, 0) == name;
      assert name in before;
      NextInstance(name, before, n - 1);
      assert Names(name, n + 1) == Names(name, n) + [Nth(name, n)];
      assert siblings + Names(name, n + 1) == before + [Numbered(name, n)];
    }
  }

  lemma FirstOne(name: string, siblings: seq<string>)
    requires Plain(name) && name !in siblings
    ensures Sanitized(name, siblings) == name
  {
    hide Clean, RootName;
  }

  /** A plain name that exists, with so many instances, gets the next number. */
  lemma NextInstance(name: string, siblings: seq<string>, n: nat)
    requires Plain(name) && name in siblings && Instances(name, siblings) == UpTo(n) && n < INT_MAX
    ensures Sanitized(name, siblings) == Numbered(name, n + 1)
  {
    hide Instances, InstanceOf, Print, Clean, RootName, Numbered;
    FirstInstance(name);
    LargestUpTo(n);
  }

  lemma LargestUpTo(n: nat)
    ensures n > 0 ==> Max(UpTo(n)) == n
    ensures NoneButZero(UpTo(n)) <==> n == 0
  {
    if n > 0 {
      assert UpTo(n)[n - 1] == n;
    }
  }

  // ------------------------------------------------------------------ names with a number

  lemma {:induction false} LastDotBehind(s: string, t: string)
    requires forall i :: 0 <= i < |t| ==> t[i] != '.'
    ensures LastDot(s + "." + t) == |s|
  {
    var r := s + "." + t;
    if t == [] {
      assert r[|r| - 1] == '.';
    } else {
      assert r[|r| - 1] == t[|t| - 1] && r[..|r| - 1] == s + "." + t[..|t| - 1];
      LastDotBehind(s, t[..|t| - 1]);
    }
  }

  lemma PrintedCharacters(n: int)
    ensures forall i :: 0 <= i < |Print(n)| ==> Print(n)[i] == '-' || IsDigit(Print(n)[i])
  {
    hide PrintNat;
  }

  /** The number that a name was given is the one that is cut off again. */
  lemma NumberIsCutOff(root: string, n: int)
    requires INT_MIN <= n <= INT_MAX
    ensures RootName(Numbered(root, n)) == root
  {
    hide Print, ToInt, LastDot;
    var s := Numbered(root, n);
    PrintedCharacters(n);
    LastDotBehind(root, Print(n));
    assert s[|root| + 1..] == Print(n) && s[..|root|] == root;
    PrintedInt(n);
  }

  lemma NumberIsClean(root: string, n: int)
    requires Clean(root) == root
    ensures Clean(Numbered(root, n)) == Numbered(root, n)
  {
    hide Print, IsDigit;
    PrintedCharacters(n);
    var s := Numbered(root, n);
    forall i | 0 <= i < |s|
      ensures IsValidCharacterForName(s[i])
    {
      if i < |root| {
        assert s[i] == root[i] == Clean(root)[i];
      } else if i > |root| {
        ValidInNumber(s[i]) by { assert s[i] == Print(n)[i - |root| - 1]; }
      }
    }
  }

  lemma ValidInNumber(c: char)
    requires c == '-' || IsDigit(c)
    ensures IsValidCharacterForName(c)
  {
  }

  /** What starts like an instance of the root has a number that was printed. */
  predicate Regular(root: string, siblings: seq<string>) {
    forall s :: s in siblings && root + "." <= s ==> exists k :: INT_MIN <= k <= INT_MAX && s == Numbered(root, k)
  }

  /** The largest number among the siblings. */
  predicate IsLargest(root: string, siblings: seq<string>, m: int) {
    && INT_MIN <= m <= INT_MAX && Numbered(root, m) in siblings
    && forall k :: INT_MIN <= k <= INT_MAX && Numbered(root, k) in siblings ==> k <= m
  }

  lemma {:induction false} InstancesFrom(root: string, siblings: seq<string>, k: int) returns (s: string)
    requires k in Instances(root, siblings)
    ensures s in siblings && InstanceOf(root, s) == Some(k)
  {
    hide InstanceOf;
    var last := siblings[|siblings| - 1];
    if InstanceOf(root, last) == Some(k) {
      s := last;
    } else {
      s := InstancesFrom(root, siblings[..|siblings| - 1], k);
    }
  }

  lemma InstancesAre(root: string, siblings: seq<string>, k: int)
    requires Regular(root, siblings)
    ensures k in Instances(root, siblings) <==> INT_MIN <= k <= INT_MAX && Numbered(root, k) in siblings
  {
    hide InstanceOf, Instances, Numbered;
    if k in Instances(root, siblings) {
      var s := InstancesFrom(root, siblings, k);
      InstanceStarts(root, s);
      var j :| INT_MIN <= j <= INT_MAX && s == Numbered(root, j);
      NumberedIsInstance(root, j);
    }
    if INT_MIN <= k <= INT_MAX && Numbered(root, k) in siblings {
      NumberedIsInstance(root, k);
      InstancesHas(root, siblings, Numbered(root, k));
    }
  }

  lemma InstanceStarts(root: string, s: string)
    requires InstanceOf(root, s).Some?
    ensures root + "." <= s
  {
    assert s[..|root| + 1] == root + ".";
  }

  /** What a name is given next to siblings that have it, from the root that it has. */
  lemma NumberAfterLargest(name: string, root: string, siblings: seq<string>)
    requires name in siblings && Clean(name) == name && RootName(name) == root && Regular(root, siblings)
    ensures forall m :: IsLargest(root, siblings, m) ==> Sanitized(name, siblings) == Numbered(root, Successor(m))
    ensures (forall k :: INT_MIN <= k <= INT_MAX ==> Numbered(root, k) !in siblings)
            ==> Sanitized(name, siblings) == Numbered(root, 1)
  {
    hide InstanceOf, Instances, Numbered, Regular, Clean, RootName;
    var numbers := Instances(root, siblings);
    FirstInstance(root);
    forall k {
      InstancesAre(root, siblings, k);
    }
  }

  /** An instance of a root that exists already is given the number after the largest one. */
  lemma InstanceGetsNext(root: string, n: int, siblings: seq<string>, m: int)
    requires INT_MIN <= n <= INT_MAX && Numbered(root, n) in siblings && Clean(root) == root
    requires Regular(root, siblings) && IsLargest(root, siblings, m)
    ensures Sanitized(Numbered(root, n), siblings) == Numbered(root, Successor(m))
  {
    hide *;
    NumberIsCutOff(root, n);
    NumberIsClean(root, n);
    NumberAfterLargest(Numbered(root, n), root, siblings);
  }

  /** So is the plain name itself, and the number one when it is the first instance. */
  lemma PlainGetsNext(root: string, siblings: seq<string>)
    requires Plain(root) && root in siblings && Regular(root, siblings)
    ensures forall m :: IsLargest(root, siblings, m) ==> Sanitized(root, siblings) == Numbered(root, Successor(m))
    ensures (forall k :: INT_MIN <= k <= INT_MAX ==> Numbered(root, k) !in siblings)
            ==> Sanitized(root, siblings) == Numbered(root, 1)
  {
    NumberAfterLargest(root, root, siblings);
  }

  /** Whichever name of the sequence is inserted again, the next number is given. */
  lemma SequenceGoesOn(name: string, siblings: seq<string>, n: nat, k: nat)
    requires Plain(name) && Instances(name, siblings) == [] && k <= n < INT_MAX
    ensures Sanitized(Nth(name, k), siblings + Names(name, n + 1)) == Numbered(name, n + 1)
  {
    hide Instances, InstanceOf, Print, Clean, RootName, Numbered;
    var all := siblings + Names(name, n + 1);
    assert all[|siblings| + k] == Nth(name, k);
    InstancesOfNames(name, siblings, n);
    FirstInstance(name);
    LargestUpTo(n);
    NumberIsCutOff(name, k);
    NumberIsClean(name, k);
  }

  // ------------------------------------------------------------------ as the source does it

  /** Replaces characters one by one. */
  method SanitizeCharacters(name: string) returns (r: string)
    ensures r == Clean(name)
  {
    r := name;
    for i := 0 to |name|
      invariant |r| == |name|
      invariant forall j :: 0 <= j < i ==> r[j] == Clean(name)[j]
      invariant forall j :: i <= j < |name| ==> r[j] == name[j]
    {
      if !IsValidCharacterForName(r[i]) {
        r := r[i := '_'];
      }
    }
  }

  /** The number of a sibling, found by comparing it with the root character by character. */
  method ReadInstance(root: string, sibling: string) returns (n: Option<int>)
    ensures n == InstanceOf(root, sibling)
  {
    if |sibling| < |root| + 1 {
      return None;
    }
    var sameRoot := true;
    var i := 0;
    while i < |root| && sameRoot
      invariant 0 <= i <= |root|
      invariant sameRoot ==> sibling[..i] == root[..i]
      invariant !sameRoot ==> sibling[..|root|] != root
    {
      if sibling[i] != root[i] {
        sameRoot := false;
        assert sibling[..|root|][i] != root[i];
      }
      i := i + 1;
    }
    assert root[..|root|] == root;
    n := None;
    if sameRoot && sibling[|root|] == '.' {
      n := ToInt(sibling[|root| + 1..]);
    }
  }

  /** The largest number, where the source sorts them and takes the last one. */
  method Largest(numbers: seq<int>) returns (m: int)
    requires numbers != []
    ensures m == Max(numbers)
  {
    m := numbers[0];
    assert numbers[..1][0] == numbers[0];
    for i := 1 to |numbers|
      invariant m == Max(numbers[..i])
    {
      assert numbers[..i + 1][..i] == numbers[..i];
      if numbers[i] > m {
        m := numbers[i];
      }
    }
    assert numbers[..|numbers|] == numbers;
  }

  method SanitizeName(name: string, siblings: seq<string>) returns (r: string)
    ensures r == Sanitized(name, siblings)
  {
    hide InstanceOf, ToInt, Print, LastDot, Clean;
    var n := SanitizeCharacters(name);
    var root := n;
    var p := LastDot(n);
    if p != -1 {
      if ToInt(n[p + 1..]).Some? {
        root := n[..p];
      }
    }
    var isHere := false;
    var numbers: seq<int> := [];
    assert siblings[..0] == [];
    for i := 0 to |siblings|
      invariant isHere <==> n in siblings[..i]
      invariant numbers == Instances(root, siblings[..i])
    {
      if siblings[i] == n {
        isHere := true;
      }
      var k := ReadInstance(root, siblings[i]);
      if k.Some? {
        numbers := numbers + [k.value];
      }
      assert siblings[..i + 1] == siblings[..i] + [siblings[i]];
      assert siblings[..i + 1][..i] == siblings[..i];
    }
    assert siblings[..|siblings|] == siblings;
    if !isHere {
      r := n;
    } else if |numbers| == 0 || (|numbers| == 1 && numbers[0] == 0) {
      r := root + ".1";
    } else {
      var m := Largest(numbers);
      r := root + "." + Print(Successor(m));
    }
  }
}
