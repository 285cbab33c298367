/** The text of a claim path (lib/dcql/src/display.rs), and that it can be read back. */
module DcqlDisplay {
  import opened Wrappers
  import opened Dcql

  // ----- Decimal numbers

  function Digit(n: nat): char
    requires n < 10
  {
    '0' + n as char
  }

  function Decimal(n: nat): (s: string)
    ensures s != "" && forall i | 0 <= i < |s| :: '0' <= s[i] <= '9'
  {
    if n < 10 then [Digit(n)] else Decimal(n / 10) + [Digit(n % 10)]
  }

  /** The number a digit string stands for. */
  ghost function Value(s: string): int {
    if s == "" then 0 else 10 * Value(s[..|s| - 1]) + (s[|s| - 1] as int - '0' as int)
  }

  lemma {:induction false} ValueOfDecimal(n: nat)
    ensures Value(Decimal(n)) == n
  {
    if n < 10 {
      assert Decimal(n)[..0] == "";
    } else {
      ValueOfDecimal(n / 10);
      assert Decimal(n)[..|Decimal(n)| - 1] == Decimal(n / 10);
    }
  }

  lemma DecimalInjective(m: nat, n: nat)
    requires Decimal(m) == Decimal(n)
    ensures m == n
  {
    ValueOfDecimal(m);
    ValueOfDecimal(n);
  }

  // ----- The text of a path

  function ShowSegment(s: PathSegment): string {
    match s
    case PropertyName(name) => "\"" + name + "\""
    case ArrayIndex(i) => Decimal(i)
    case ArrayAll => "null"
  }

  /** The segments after the first, each with the separator before it. */
  function ShowRest(p: ClaimPath): string {
    if p == [] then "" else ", " + (ShowSegment(p[0]) + ShowRest(p[1..]))
  }

  function ShowSegments(p: ClaimPath): string {
    if p == [] then "" else ShowSegment(p[0]) + ShowRest(p[1..])
  }

  function Show(p: ClaimPath): string {
    "[" + ShowSegments(p) + "]"
  }

  // ----- What is written

  /** A name in quotes, an index in decimal without leading zeros, or null. */
  ghost predicate Writes(s: PathSegment, text: string) {
    match s
    case PropertyName(name) => text == ['"'] + name + ['"']
    case ArrayIndex(n) =>
      && text != "" && (forall i | 0 <= i < |text| :: '0' <= text[i] <= '9') && Value(text) == n && (n > 0 ==> text[0] != '0')
      && (n == 0 ==> text == "0")
    case ArrayAll => text == "null"
  }

  ghost function Joined(texts: seq<string>): string {
    if texts == [] then ""
    else if |texts| == 1 then texts[0]
    else Joined(texts[..|texts| - 1]) + ", " + texts[|texts| - 1]
  }

  lemma {:induction false} NoLeadingZero(n: nat)
    requires n > 0
    ensures Decimal(n)[0] != '0'
  {
    if n >= 10 {
      NoLeadingZero(n / 10);
    }
  }

  lemma SegmentWrites(s: PathSegment)
    ensures Writes(s, ShowSegment(s))
  {
    if s.ArrayIndex? {
      ValueOfDecimal(s.index);
      if s.index > 0 {
        NoLeadingZero(s.index);
      }
    }
  }

  ghost predicate AllWritten(p: ClaimPath, texts: seq<string>) {
    |texts| == |p| && forall i | 0 <= i < |p| :: Writes(p[i], texts[i])
  }

  lemma OneMoreWritten(p: ClaimPath, a: ClaimPath, s: PathSegment, texts: seq<string>, text: string)
    requires p == a + [s] && AllWritten(a, texts) && Writes(s, text)
    ensures AllWritten(p, texts + [text])
  {
    forall i | 0 <= i < |p|
      ensures Writes(p[i], (texts + [text])[i])
    {
      if i < |a| {
        assert p[i] == a[i];
      }
    }
  }

  lemma JoinedMore(texts: seq<string>, text: string)
    ensures Joined(texts + [text]) == if texts == [] then text else Joined(texts) + ", " + text
  {
    var more := texts + [text];
    assert more[..|more| - 1] == texts;
  }

  lemma TextGrowsAlike(p: ClaimPath, a: ClaimPath, s: PathSegment, texts: seq<string>)
    requires p == a + [s] && |texts| == |a| && ShowSegments(a) == Joined(texts)
    ensures ShowSegments(p) == Joined(texts + [ShowSegment(s)])
  {
    JoinedMore(texts, ShowSegment(s));
    SegmentsGrow(p, a, s);
  }

  ghost predicate TextOf(p: ClaimPath, texts: seq<string>) {
    AllWritten(p, texts) && ShowSegments(p) == Joined(texts)
  }

  lemma TextOfMore(p: ClaimPath, a: ClaimPath, s: PathSegment, texts: seq<string>)
    requires p == a + [s] && TextOf(a, texts)
    ensures TextOf(p, texts + [ShowSegment(s)])
  {
    SegmentWrites(s);
    OneMoreWritten(p, a, s, texts, ShowSegment(s));
    TextGrowsAlike(p, a, s, texts);
  }

  lemma TextOfNothing()
    ensures TextOf([], [])
  {
  }

  lemma PrefixGrows(p: ClaimPath, n: nat)
    requires 0 < n <= |p|
    ensures p[..n] == p[..n - 1] + [p[n - 1]]
  {
  }

  lemma {:induction false} SegmentsWrite(p: ClaimPath, n: nat) returns (texts: seq<string>)
    requires n <= |p|
    ensures TextOf(p[..n], texts)
  {
    if n == 0 {
      texts := [];
      TextOfNothing();
      assert p[..0] == [];
    } else {
      texts := SegmentsWrite(p, n - 1);
      PrefixGrows(p, n);
      TextOfMore(p[..n], p[..n - 1], p[n - 1], texts);
      texts := texts + [ShowSegment(p[n - 1])];
    }
  }

  /** The text of a path: the texts of its segments, separated by commas, in brackets. */
  lemma ShowWrites(p: ClaimPath) returns (texts: seq<string>)
    ensures AllWritten(p, texts) && Show(p) == "[" + Joined(texts) + "]"
  {
    texts := SegmentsWrite(p, |p|);
    assert p[..|p|] == p;
  }

  lemma {:induction false} LeadIsText(p: ClaimPath)
    requires p != []
    ensures Lead(p) == ShowSegments(p) + ", "
  {
    if |p| == 1 {
      assert Lead(p[1..]) == "" && ShowRest(p[1..]) == "";
    } else {
      LeadIsText(p[1..]);
      RestIsSegments(p[1..]);
    }
  }

  lemma SegmentsGrow(p: ClaimPath, a: ClaimPath, s: PathSegment)
    requires p == a + [s]
    ensures ShowSegments(p) == if a == [] then ShowSegment(s) else ShowSegments(a) + ", " + ShowSegment(s)
  {
    TextOfSum(p, a, [s]);
    assert ShowSegments([s]) == ShowSegment(s);
    if a != [] {
      LeadIsText(a);
    }
  }

  /** A closing quote and a separator start at `i`. */
  ghost predicate EndsNameAt(s: string, i: nat) {
    i + 2 < |s| && s[i] == '"' && s[i + 1] == ',' && s[i + 2] == ' '
  }

  /** The name contains nothing that looks like the end of a name and a separator. */
  ghost predicate PlainName(name: string) {
    forall i: nat :: !EndsNameAt(name, i)
  }

  ghost predicate PlainNames(p: ClaimPath) {
    forall i | 0 <= i < |p| && p[i].PropertyName? :: PlainName(p[i].name)
  }

  /** What may follow a segment: nothing, or a separator. */
  ghost predicate AfterSegment(s: string) {
    s == "" || (|s| >= 2 && s[0] == ',' && s[1] == ' ')
  }

  lemma RestFollows(p: ClaimPath)
    ensures AfterSegment(ShowRest(p))
    ensures ShowRest(p) == "" <==> p == []
  {
  }

  lemma LongerNameDiffers(a: string, b: string, x: string, y: string)
    requires PlainName(b) && |a| < |b| && AfterSegment(x)
    ensures "\"" + a + "\"" + x != "\"" + b + "\"" + y
  {
    var s, t := "\"" + a + "\"" + x, "\"" + b + "\"" + y;
    if s == t {
      assert |s| == |a| + 2 + |x| && |t| == |b| + 2 + |y|;
      assert s[|a| + 1] == '"' && s[|a| + 2] == ',' && s[|a| + 3] == ' ';
      assert t[|b| + 1] == '"' && forall i | 0 <= i < |b| :: t[i + 1] == b[i];
      assert EndsNameAt(b, |a|);
    }
  }

  /** A quoted name ends where a separator or nothing follows. */
  lemma NameDetermined(a: string, b: string, x: string, y: string)
    requires PlainName(a) && PlainName(b) && AfterSegment(x) && AfterSegment(y)
    requires "\"" + a + "\"" + x == "\"" + b + "\"" + y
    ensures a == b && x == y
  {
    var s, t := "\"" + a + "\"" + x, "\"" + b + "\"" + y;
    if |a| < |b| {
      LongerNameDiffers(a, b, x, y);
    } else if |b| < |a| {
      LongerNameDiffers(b, a, y, x);
    }
    assert a == s[1..|a| + 1] && b == t[1..|b| + 1];
    assert x == s[|a| + 2..] && y == t[|b| + 2..];
  }

  lemma LongerNumberDiffers(a: string, b: string, x: string, y: string)
    requires |a| < |b| && AfterSegment(x) && forall i | 0 <= i < |b| :: '0' <= b[i] <= '9'
    ensures a + x != b + y
  {
    if x != "" {
      assert (a + x)[|a|] == ',' && (b + y)[|a|] == b[|a|];
    } else {
      assert |a + x| < |b + y|;
    }
  }

  /** A number ends where its digits do. */
  lemma DigitsDetermined(a: string, b: string, x: string, y: string)
    requires forall i | 0 <= i < |a| :: '0' <= a[i] <= '9'
    requires forall i | 0 <= i < |b| :: '0' <= b[i] <= '9'
    requires AfterSegment(x) && AfterSegment(y) && a + x == b + y
    ensures a == b && x == y
  {
    var s, t := a + x, b + y;
    if |a| < |b| {
      LongerNumberDiffers(a, b, x, y);
    } else if |b| < |a| {
      LongerNumberDiffers(b, a, y, x);
    }
    assert a == s[..|a|] && b == t[..|b|];
    assert x == s[|a|..] && y == t[|b|..];
  }

  /** The first character tells the kind of segment. */
  lemma FirstCharacter(s: PathSegment, rest: string)
    ensures ShowSegment(s) + rest != ""
    ensures match s
            case PropertyName(_) => (ShowSegment(s) + rest)[0] == '"'
            case ArrayIndex(_) => '0' <= (ShowSegment(s) + rest)[0] <= '9'
            case ArrayAll => (ShowSegment(s) + rest)[0] == 'n'
  {
  }

  lemma SegmentDetermined(a: PathSegment, b: PathSegment, x: string, y: string)
    requires a.PropertyName? ==> PlainName(a.name)
    requires b.PropertyName? ==> PlainName(b.name)
    requires AfterSegment(x) && AfterSegment(y) && ShowSegment(a) + x == ShowSegment(b) + y
    ensures a == b && x == y
  {
    FirstCharacter(a, x);
    FirstCharacter(b, y);
    match a
    case PropertyName(name) =>
      NameDetermined(name, b.name, x, y);
    case ArrayIndex(i) =>
      DigitsDetermined(Decimal(i), Decimal(b.index), x, y);
      DecimalInjective(i, b.index);
    case ArrayAll =>
      assert x == ("null" + x)[4..] && y == ("null" + y)[4..];
  }

  lemma SeparatorStripped(x: string, y: string)
    requires ", " + x == ", " + y
    ensures x == y
  {
    assert x == (", " + x)[2..] && y == (", " + y)[2..];
  }

  lemma {:induction false} RestDetermined(p: ClaimPath, q: ClaimPath)
    requires PlainNames(p) && PlainNames(q) && ShowRest(p) == ShowRest(q)
    ensures p == q
  {
    RestFollows(p);
    RestFollows(q);
    if p != [] {
      SeparatorStripped(ShowSegment(p[0]) + ShowRest(p[1..]), ShowSegment(q[0]) + ShowRest(q[1..]));
      RestFollows(p[1..]);
      RestFollows(q[1..]);
      SegmentDetermined(p[0], q[0], ShowRest(p[1..]), ShowRest(q[1..]));
      RestDetermined(p[1..], q[1..]);
      assert p == [p[0]] + p[1..] && q == [q[0]] + q[1..];
    }
  }

  lemma SegmentsDetermined(p: ClaimPath, q: ClaimPath)
    requires PlainNames(p) && PlainNames(q) && p != [] && q != [] && ShowSegments(p) == ShowSegments(q)
    ensures p == q
  {
    RestFollows(p[1..]);
    RestFollows(q[1..]);
    SegmentDetermined(p[0], q[0], ShowRest(p[1..]), ShowRest(q[1..]));
    RestDetermined(p[1..], q[1..]);
    assert p == [p[0]] + p[1..] && q == [q[0]] + q[1..];
  }

  lemma EmptyPathDetermined(p: ClaimPath)
    requires ShowSegments(p) == ""
    ensures p == []
  {
    if p != [] {
      FirstCharacter(p[0], ShowRest(p[1..]));
    }
  }

  /** Two paths with plain names that print alike are the same path. */
  lemma ShowInjective(p: ClaimPath, q: ClaimPath)
    requires PlainNames(p) && PlainNames(q) && Show(p) == Show(q)
    ensures p == q
  {
    assert ShowSegments(p) == Show(p)[1..|Show(p)| - 1];
    assert ShowSegments(q) == Show(q)[1..|Show(q)| - 1];
    if p == [] {
      EmptyPathDetermined(q);
    } else if q == [] {
      EmptyPathDetermined(p);
    } else {
      SegmentsDetermined(p, q);
    }
  }

  // ----- Exactly which paths share their text with another one

  ghost predicate NoNames(p: ClaimPath) {
    forall i | 0 <= i < |p| :: !p[i].PropertyName?
  }

  /** The segments of a path, each with the separator after it. */
  ghost function Lead(p: ClaimPath): string {
    if p == [] then "" else ShowSegment(p[0]) + (", " + Lead(p[1..]))
  }

  /** The text between the outer quotes of two names and what stands between them. */
  ghost function Merged(u: string, middle: ClaimPath, v: string): string {
    u + ("\"" + (", " + (Lead(middle) + ("\"" + v))))
  }

  /** The name reads as two names with indices and wildcards between them. */
  ghost predicate Splits(name: string) {
    exists u, middle, v :: NoNames(middle) && name == Merged(u, middle, v)
  }

  ghost predicate TwoNames(p: ClaimPath) {
    exists i, j :: 0 <= i < j < |p| && p[i].PropertyName? && p[j].PropertyName?
  }

  ghost predicate HasSplittingName(p: ClaimPath) {
    exists i :: 0 <= i < |p| && p[i].PropertyName? && Splits(p[i].name)
  }

  /** Two names print like one long name, and a splitting name like two. */
  ghost predicate Ambiguous(p: ClaimPath) {
    TwoNames(p) || HasSplittingName(p)
  }

  lemma Regroup(w: string, x: string, y: string, z: string)
    ensures w + (x + (y + z)) == (w + (x + y)) + z
  {
  }

  lemma RegroupQuoted(quote: string, name: string, x: string)
    ensures (quote + name + quote) + x == quote + (name + (quote + x))
  {
  }

  lemma RegroupMerged(u: string, quote: string, sep: string, x: string, v: string, y: string)
    ensures u + (quote + (sep + (x + (quote + (v + (quote + y)))))) == (u + (quote + (sep + (x + (quote + v))))) + (quote + y)
  {
  }

  lemma NothingBefore(x: string)
    ensures "" + x == x
  {
  }

  lemma LeadStep(p: ClaimPath, a: ClaimPath, x: string)
    requires p != [] && a != [] && p[0] == a[0] && Lead(p[1..]) == Lead(a[1..]) + x
    ensures Lead(p) == Lead(a) + x
  {
    Regroup(ShowSegment(a[0]), ", ", Lead(a[1..]), x);
  }

  lemma TailOfSum(p: ClaimPath, a: ClaimPath, b: ClaimPath)
    requires p == a + b && a != []
    ensures p != [] && p[0] == a[0] && p[1..] == a[1..] + b
  {
  }

  lemma {:induction false} LeadOfSum(p: ClaimPath, a: ClaimPath, b: ClaimPath)
    requires p == a + b
    ensures Lead(p) == Lead(a) + Lead(b)
    decreases |a|
  {
    if |a| == 0 {
      assert p == b;
      NothingBefore(Lead(b));
    } else {
      TailOfSum(p, a, b);
      LeadOfSum(p[1..], a[1..], b);
      LeadStep(p, a, Lead(b));
    }
  }

  lemma RestIsSegments(p: ClaimPath)
    requires p != []
    ensures ShowRest(p) == ", " + ShowSegments(p)
  {
  }

  lemma TextStep(p: ClaimPath, a: ClaimPath, x: string)
    requires |p| > 1 && a != [] && p[0] == a[0] && ShowSegments(p[1..]) == Lead(a[1..]) + x
    ensures ShowSegments(p) == Lead(a) + x
  {
    RestIsSegments(p[1..]);
    Regroup(ShowSegment(a[0]), ", ", Lead(a[1..]), x);
  }

  lemma {:induction false} TextOfSum(p: ClaimPath, a: ClaimPath, b: ClaimPath)
    requires p == a + b && b != []
    ensures ShowSegments(p) == Lead(a) + ShowSegments(b)
    decreases |a|
  {
    if |a| == 0 {
      assert p == b;
      NothingBefore(ShowSegments(b));
    } else {
      TailOfSum(p, a, b);
      TextOfSum(p[1..], a[1..], b);
      TextStep(p, a, ShowSegments(b));
    }
  }

  /** The text of a path around one of its segments. */
  lemma TextAround(a: ClaimPath, s: PathSegment, b: ClaimPath)
    ensures ShowSegments(a + [s] + b) == Lead(a) + (ShowSegment(s) + ShowRest(b))
  {
    var tail := [s] + b;
    assert a + [s] + b == a + tail;
    TextOfSum(a + tail, a, tail);
    assert tail[0] == s && tail[1..] == b;
  }

  lemma TextAroundOne(a: ClaimPath, n: string, b: ClaimPath)
    ensures ShowSegments(a + [PropertyName(n)] + b) == Lead(a) + ("\"" + (n + ("\"" + ShowRest(b))))
  {
    TextAround(a, PropertyName(n), b);
    RegroupQuoted("\"", n, ShowRest(b));
  }

  /** The text of a path around two of its names. */
  lemma TextAroundTwo(a: ClaimPath, u: string, middle: ClaimPath, v: string, b: ClaimPath)
    ensures ShowSegments(a + [PropertyName(u)] + (middle + [PropertyName(v)] + b))
         == Lead(a) + ("\"" + (Merged(u, middle, v) + ("\"" + ShowRest(b))))
  {
    var rest := middle + [PropertyName(v)] + b;
    TextAroundOne(a, u, rest);
    TextAround(middle, PropertyName(v), b);
    RestIsSegments(rest);
    RegroupQuoted("\"", v, ShowRest(b));
    RegroupMerged(u, "\"", ", ", Lead(middle), v, ShowRest(b));
  }

  /** Two names print like the one name that spans them. */
  lemma MergedPrintsAlike(a: ClaimPath, u: string, middle: ClaimPath, v: string, b: ClaimPath)
    ensures Show(a + [PropertyName(u)] + (middle + [PropertyName(v)] + b)) == Show(a + [PropertyName(Merged(u, middle, v))] + b)
  {
    TextAroundTwo(a, u, middle, v, b);
    TextAroundOne(a, Merged(u, middle, v), b);
  }

  lemma Around(p: ClaimPath, i: nat)
    requires i < |p|
    ensures p == p[..i] + [p[i]] + p[i + 1..]
  {
  }

  ghost predicate Collides(p: ClaimPath) {
    exists q :: q != p && Show(q) == Show(p)
  }

  lemma CollidesWith(p: ClaimPath, q: ClaimPath)
    requires |q| != |p| && Show(q) == Show(p)
    ensures Collides(p)
  {
  }

  lemma AroundTwo(p: ClaimPath, i: nat, j: nat)
    requires i < j < |p|
    ensures p == p[..i] + [p[i]] + (p[i + 1..j] + [p[j]] + p[j + 1..])
  {
  }

  lemma TwoNamesCollide(p: ClaimPath, i: nat, j: nat)
    requires i < j < |p| && p[i].PropertyName? && p[j].PropertyName?
    ensures Collides(p)
  {
    var a, middle, b := p[..i], p[i + 1..j], p[j + 1..];
    AroundTwo(p, i, j);
    MergedPrintsAlike(a, p[i].name, middle, p[j].name, b);
    CollidesWith(p, a + [PropertyName(Merged(p[i].name, middle, p[j].name))] + b);
  }

  lemma SplittingNameCollides(p: ClaimPath, i: nat)
    requires i < |p| && p[i].PropertyName? && Splits(p[i].name)
    ensures Collides(p)
  {
    var u, middle, v :| NoNames(middle) && p[i].name == Merged(u, middle, v);
    var a, b := p[..i], p[i + 1..];
    Around(p, i);
    MergedPrintsAlike(a, u, middle, v, b);
    CollidesWith(p, a + [PropertyName(u)] + (middle + [PropertyName(v)] + b));
  }

  // ----- The other direction: quotes delimit names

  lemma FirstQuote(x: string, y: string, x': string, y': string)
    requires '"' !in x && '"' !in x' && x + ("\"" + y) == x' + ("\"" + y')
    ensures x == x' && y == y'
  {
    var s, t := x + ("\"" + y), x' + ("\"" + y');
    assert s[|x|] == '"' && t[|x'|] == '"';
    assert forall i | 0 <= i < |x| :: s[i] == x[i];
    assert forall i | 0 <= i < |x'| :: t[i] == x'[i];
    assert |x| == |x'|;
    assert x == s[..|x|] && x' == t[..|x'|] && y == s[|x| + 1..] && y' == t[|x'| + 1..];
  }

  lemma LastQuote(x: string, y: string, x': string, y': string)
    requires '"' !in y && '"' !in y' && x + ("\"" + y) == x' + ("\"" + y')
    ensures x == x' && y == y'
  {
    var s, t := x + ("\"" + y), x' + ("\"" + y');
    assert s[|x|] == '"' && t[|x'|] == '"';
    assert forall i | |x| < i < |s| :: s[i] == y[i - |x| - 1];
    assert forall i | |x'| < i < |t| :: t[i] == y'[i - |x'| - 1];
    assert |x| == |x'|;
    assert x == s[..|x|] && x' == t[..|x'|] && y == s[|x| + 1..] && y' == t[|x'| + 1..];
  }

  lemma {:induction false} NoNamesNoQuotes(p: ClaimPath)
    requires NoNames(p)
    ensures '"' !in Lead(p) && '"' !in ShowRest(p)
  {
    if p != [] {
      assert NoNames(p[1..]);
      NoNamesNoQuotes(p[1..]);
      assert !p[0].PropertyName?;
    }
  }

  lemma {:induction false} LeadDetermined(p: ClaimPath, q: ClaimPath)
    requires NoNames(p) && NoNames(q) && Lead(p) == Lead(q)
    ensures p == q
  {
    if p != [] && q != [] {
      assert !p[0].PropertyName? && !q[0].PropertyName? && NoNames(p[1..]) && NoNames(q[1..]);
      var x, y := ", " + Lead(p[1..]), ", " + Lead(q[1..]);
      SegmentDetermined(p[0], q[0], x, y);
      SeparatorStripped(Lead(p[1..]), Lead(q[1..]));
      LeadDetermined(p[1..], q[1..]);
      assert p == [p[0]] + p[1..] && q == [q[0]] + q[1..];
    }
  }

  lemma FirstName(p: ClaimPath) returns (i: nat)
    requires !NoNames(p)
    ensures i < |p| && p[i].PropertyName? && NoNames(p[..i])
  {
    i := 0;
    while !p[i].PropertyName?
      invariant i < |p| && NoNames(p[..i]) && exists k :: i <= k < |p| && p[k].PropertyName?
      decreases |p| - i
    {
      i := i + 1;
    }
  }

  lemma LastName(p: ClaimPath) returns (j: nat)
    requires !NoNames(p)
    ensures j < |p| && p[j].PropertyName? && NoNames(p[j + 1..])
  {
    j := |p| - 1;
    while !p[j].PropertyName?
      invariant j < |p| && NoNames(p[j + 1..]) && exists k :: 0 <= k <= j && p[k].PropertyName?
      decreases j
    {
      j := j - 1;
    }
  }

  lemma RegroupSplit(x: string, quote: string, name: string, sep: string, y: string, z: string)
    ensures (x + ((quote + name + quote) + (sep + y))) + z == x + (quote + (name + (quote + (sep + (y + z)))))
  {
  }

  /** A name that spans several names splits at the first of them. */
  lemma MergedSplits(u: string, middle: ClaimPath, v: string)
    ensures Splits(Merged(u, middle, v))
  {
    if !NoNames(middle) {
      var i := FirstName(middle);
      var first, n, rest := middle[..i], middle[i].name, middle[i + 1..];
      assert middle == first + middle[i..];
      LeadOfSum(middle, first, middle[i..]);
      assert middle[i..][0] == PropertyName(n) && middle[i..][1..] == rest;
      RegroupSplit(Lead(first), "\"", n, ", ", Lead(rest), "\"" + v);
      assert Merged(u, middle, v) == Merged(u, first, Merged(n, rest, v));
    }
  }

  /** The one name, the first and last name of the other path, and what is around them. */
  lemma OuterPartsDetermined(a: ClaimPath, n: string, b: ClaimPath, a': ClaimPath, n': string, b': ClaimPath)
    requires NoNames(a) && NoNames(b) && NoNames(a') && NoNames(b')
    requires Lead(a) + ("\"" + (n + ("\"" + ShowRest(b)))) == Lead(a') + ("\"" + (n' + ("\"" + ShowRest(b'))))
    ensures a == a' && n == n' && b == b'
  {
    NoNamesNoQuotes(a);
    NoNamesNoQuotes(b);
    NoNamesNoQuotes(a');
    NoNamesNoQuotes(b');
    FirstQuote(Lead(a), n + ("\"" + ShowRest(b)), Lead(a'), n' + ("\"" + ShowRest(b')));
    LastQuote(n, ShowRest(b), n', ShowRest(b'));
    LeadDetermined(a, a');
    RestDetermined(b, b');
  }

  /** A path with a single, unsplittable name has its text to itself. */
  lemma OneNameDetermined(a: ClaimPath, n: string, b: ClaimPath, q: ClaimPath)
    requires NoNames(a) && NoNames(b) && !Splits(n) && ShowSegments(q) == ShowSegments(a + [PropertyName(n)] + b)
    requires !NoNames(q)
    ensures q == a + [PropertyName(n)] + b
  {
    var i := FirstName(q);
    var j := LastName(q);
    var a', b' := q[..i], q[j + 1..];
    TextAroundOne(a, n, b);
    if i == j {
      Around(q, i);
      TextAroundOne(a', q[i].name, b');
      OuterPartsDetermined(a, n, b, a', q[i].name, b');
    } else {
      OrderOfNames(q, i, j);
      var middle := q[i + 1..j];
      AroundTwo(q, i, j);
      TextAroundTwo(a', q[i].name, middle, q[j].name, b');
      MergedSplits(q[i].name, middle, q[j].name);
      OuterPartsDetermined(a, n, b, a', Merged(q[i].name, middle, q[j].name), b');
    }
  }

  /** Nothing after the last name is a name. */
  lemma OrderOfNames(q: ClaimPath, i: nat, j: nat)
    requires i < |q| && j < |q| && i != j && q[i].PropertyName? && NoNames(q[j + 1..])
    ensures i < j
  {
    forall k | j < k < |q|
      ensures !q[k].PropertyName?
    {
      assert q[k] == q[j + 1..][k - j - 1];
    }
  }

  lemma SegmentsHaveQuotes(p: ClaimPath)
    requires !NoNames(p)
    ensures '"' in ShowSegments(p)
  {
    var i := FirstName(p);
    Around(p, i);
    TextAroundOne(p[..i], p[i].name, p[i + 1..]);
    assert ShowSegments(p)[|Lead(p[..i])|] == '"';
  }

  lemma NoQuotesInSegments(p: ClaimPath)
    requires NoNames(p)
    ensures '"' !in ShowSegments(p)
  {
    NoNamesNoQuotes(p);
    if p != [] {
      assert ShowRest(p) == ", " + ShowSegments(p);
      assert forall c | c in ShowSegments(p) :: c in ShowRest(p);
    }
  }

  lemma ShowDeterminesSegments(p: ClaimPath, q: ClaimPath)
    requires Show(p) == Show(q)
    ensures ShowSegments(p) == ShowSegments(q)
  {
    assert ShowSegments(p) == Show(p)[1..|Show(p)| - 1];
    assert ShowSegments(q) == Show(q)[1..|Show(q)| - 1];
  }

  lemma UnambiguousDetermined(p: ClaimPath, q: ClaimPath)
    requires !Ambiguous(p) && Show(p) == Show(q)
    ensures p == q
  {
    ShowDeterminesSegments(p, q);
    if NoNames(p) {
      NoQuotesInSegments(p);
      if !NoNames(q) {
        SegmentsHaveQuotes(q);
      }
      ShowInjective(p, q);
    } else {
      if NoNames(q) {
        NoQuotesInSegments(q);
        SegmentsHaveQuotes(p);
      }
      var i := FirstName(p);
      Around(p, i);
      assert NoNames(p[i + 1..]) && !Splits(p[i].name);
      OneNameDetermined(p[..i], p[i].name, p[i + 1..], q);
    }
  }

  /** Another path has the same text if and only if the path has two names, or a name that
      reads as two. */
  lemma CollidesIffAmbiguous(p: ClaimPath)
    ensures (exists q :: q != p && Show(q) == Show(p)) <==> Ambiguous(p)
  {
    if TwoNames(p) {
      var i, j :| 0 <= i < j < |p| && p[i].PropertyName? && p[j].PropertyName?;
      TwoNamesCollide(p, i, j);
    } else if HasSplittingName(p) {
      var i :| 0 <= i < |p| && p[i].PropertyName? && Splits(p[i].name);
      SplittingNameCollides(p, i);
    } else if q :| q != p && Show(q) == Show(p) {
      UnambiguousDetermined(p, q);
    }
  }

  /** Every name that contains a closing quote, a separator and an opening quote prints like
      the two names around them. */
  lemma SeparatorsCollide(u: string, v: string)
    ensures var one, two := [PropertyName(u + "\", \"" + v)], [PropertyName(u), PropertyName(v)];
            one != two && Show(one) == Show(two) && !PlainNames(one)
  {
    var one, two := [PropertyName(u + "\", \"" + v)], [PropertyName(u), PropertyName(v)];
    assert one[1..] == [] && two[1..] == [PropertyName(v)] && two[1..][1..] == [];
    assert ShowRest(one[1..]) == "" && ShowRest(two[1..][1..]) == "";
    assert ShowRest(two[1..]) == ", " + ("\"" + v + "\"");
    assert ShowSegments(one) == "\"" + (u + "\", \"" + v) + "\"" == ("\"" + u + "\"") + (", " + ("\"" + v + "\"")) == ShowSegments(two);
    assert EndsNameAt(one[0].name, |u|);
  }
}
