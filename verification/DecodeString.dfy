/** Decoding k[...] strings, with two stacks and by recursion. */
module DecodeString {
  import opened Wrappers
  import opened Division

  /** What an encoded string says: letters, and groups with a repeat count in decimal digits. */
  datatype Text = End | Letter(c: char, next: Text) | Repeat(count: string, body: Text, next: Text)

  predicate IsDigit(c: char) {
    '0' <= c <= '9'
  }

  predicate IsAlpha(c: char) {
    'a' <= c <= 'z' || 'A' <= c <= 'Z'
  }

  predicate AllDigits(s: string) {
    forall i :: 0 <= i < |s| ==> IsDigit(s[i])
  }

  ghost predicate WellFormed(t: Text) {
    match t
    case End => true
    case Letter(c, next) => IsAlpha(c) && WellFormed(next)
    case Repeat(count, body, next) => count != "" && AllDigits(count) && WellFormed(body) && WellFormed(next)
  }

  function Digit(c: char): int {
    c as int - '0' as int
  }

  /** The number a string of digits denotes. */
  function Value(s: string): int {
    if s == "" then 0 else Value(s[..|s| - 1]) * 10 + Digit(s[|s| - 1])
  }

  function Times(k: nat, s: string): string {
    if k == 0 then "" else Times(k - 1, s) + s
  }

  /** The characters as the grammar lists them. */
  lemma DigitsAndLetters(c: char)
    ensures IsDigit(c) <==> c in "0123456789"
    ensures IsAlpha(c) <==> c in "abcdefghijklmnopqrstuvwxyz" || c in "ABCDEFGHIJKLMNOPQRSTUVWXYZ"
  {
  }

  /** k copies of s one after the other. */
  lemma {:induction false} TimesIsCopies(k: nat, s: string)
    ensures |Times(k, s)| == k * |s|
    ensures forall i :: 0 <= i < k * |s| ==> Times(k, s)[i] == s[i % |s|]
  {
    if k > 0 {
      TimesIsCopies(k - 1, s);
      assert k * |s| == (k - 1) * |s| + |s|;
      forall i | 0 <= i < k * |s|
        ensures Times(k, s)[i] == s[i % |s|]
      {
        if i >= (k - 1) * |s| {
          Quotient(k - 1, |s|, i - (k - 1) * |s|);
        }
      }
    }
  }

  function PowerOfTen(e: nat): nat {
    if e == 0 then 1 else 10 * PowerOfTen(e - 1)
  }

  /** The decimal digits of s at their places: those from i on, each times its power of ten. */
  function Decimal(s: string, i: nat): int
    requires i <= |s|
    decreases |s| - i
  {
    if i == |s| then 0 else Place(s[i]) * PowerOfTen(|s| - 1 - i) + Decimal(s, i + 1)
  }

  /** The place of c among the digits. */
  function Place(c: char): int {
    if c == '1' then 1 else if c == '2' then 2 else if c == '3' then 3 else if c == '4' then 4 else if c == '5' then 5
    else if c == '6' then 6 else if c == '7' then 7 else if c == '8' then 8 else if c == '9' then 9 else 0
  }

  lemma {:induction false} ValueIsDecimal(s: string)
    requires AllDigits(s)
    ensures Value(s) == Decimal(s, 0)
  {
    if s != "" {
      var n := |s| - 1;
      ValueIsDecimal(s[..n]);
      DecimalShifts(s, 0);
    }
  }

  /** One more digit at the end moves all the others up by one power of ten. */
  lemma {:induction false} DecimalShifts(s: string, i: nat)
    requires AllDigits(s) && i < |s|
    ensures Decimal(s, i) == 10 * Decimal(s[..|s| - 1], i) + Digit(s[|s| - 1])
    decreases |s| - i
  {
    var n := |s| - 1;
    if i < n {
      DecimalShifts(s, i + 1);
      assert s[..n][i] == s[i];
      assert PowerOfTen(n - i) == 10 * PowerOfTen(n - 1 - i);
    }
  }

  lemma {:induction false} ValueOfDigits(s: string)
    requires AllDigits(s)
    ensures Value(s) >= 0
  {
    if s != "" {
      ValueOfDigits(s[..|s| - 1]);
    }
  }

  /** The count of a group. */
  function RepeatCount(count: string): nat
    requires AllDigits(count)
  {
    ValueOfDigits(count);
    Value(count)
  }

  /** The encoded string. */
  ghost function Print(t: Text): string {
    match t
    case End => ""
    case Letter(c, next) => [c] + Print(next)
    case Repeat(count, body, next) => count + "[" + Print(body) + "]" + Print(next)
  }

  /** The decoded string. */
  ghost function Expand(t: Text): string
    requires WellFormed(t)
  {
    match t
    case End => ""
    case Letter(c, next) => [c] + Expand(next)
    case Repeat(count, body, next) => Times(RepeatCount(count), Expand(body)) + Expand(next)
  }

  lemma {:induction false} TimesHasNo(k: nat, s: string, c: char)
    requires c !in s
    ensures c !in Times(k, s)
  {
    if k > 0 {
      TimesHasNo(k - 1, s, c);
    }
  }

  lemma {:induction false} ExpandHasNo(t: Text, c: char)
    requires WellFormed(t) && !IsAlpha(c)
    ensures c !in Expand(t)
  {
    match t
    case End =>
    case Letter(_, next) =>
      ExpandHasNo(next, c);
    case Repeat(count, body, next) =>
      ExpandHasNo(body, c);
      ExpandHasNo(next, c);
      TimesHasNo(RepeatCount(count), Expand(body), c);
  }

  // ---------- Tokens ----------

  /** The tokens of a string: counts, brackets and characters. */
  datatype Tokens =
    | Nil
    | Num(value: int, rest: Tokens)
    | Open(rest: Tokens)
    | Close(rest: Tokens)
    | Char(c: char, rest: Tokens)

  /** Where the first '[' from i on is, or the end. */
  function NumEnd(s: string, i: nat): (j: nat)
    requires i <= |s|
    ensures i <= j <= |s| && (forall k :: i <= k < j ==> s[k] != '[') && (j < |s| ==> s[j] == '[')
    decreases |s| - i
  {
    if i == |s| || s[i] == '[' then i else NumEnd(s, i + 1)
  }

  /** The number whose digits stand from i to j. */
  function ValueIn(s: string, i: nat, j: nat): int
    requires i <= j <= |s|
    decreases j
  {
    if j == i then 0 else ValueIn(s, i, j - 1) * 10 + Digit(s[j - 1])
  }

  ghost function Lex(s: string, i: nat): Tokens
    requires i <= |s|
    decreases |s| - i
  {
    if i == |s| then Nil
    else if IsDigit(s[i]) then
      var j := NumEnd(s, i);
      Num(ValueIn(s, i, j), Lex(s, j))
    else if s[i] == '[' then Open(Lex(s, i + 1))
    else if s[i] == ']' then Close(Lex(s, i + 1))
    else Char(s[i], Lex(s, i + 1))
  }

  /** The tokens of a text in front of the given ones. */
  ghost function TokensOf(t: Text, rest: Tokens): Tokens
    decreases t
  {
    match t
    case End => rest
    case Letter(c, next) => Char(c, TokensOf(next, rest))
    case Repeat(count, body, next) => Num(Value(count), Open(TokensOf(body, Close(TokensOf(next, rest)))))
  }

  /** The word w stands in s at position i. */
  ghost predicate At(s: string, i: nat, w: string) {
    i + |w| <= |s| && forall k {:trigger w[k]} :: 0 <= k < |w| ==> s[i + k] == w[k]
  }

  lemma AtSplit(s: string, i: nat, u: string, v: string)
    requires At(s, i, u + v)
    ensures At(s, i, u) && At(s, i + |u|, v)
  {
    assert forall k :: 0 <= k < |u| ==> (u + v)[k] == u[k];
    assert forall k :: 0 <= k < |v| ==> (u + v)[|u| + k] == v[k];
  }

  lemma {:induction false} ValueAt(s: string, i: nat, count: string)
    requires At(s, i, count)
    ensures ValueIn(s, i, i + |count|) == Value(count)
    decreases |count|
  {
    if count != "" {
      var n := |count| - 1;
      assert At(s, i, count[..n]) && s[i + n] == count[n];
      ValueAt(s, i, count[..n]);
    }
  }

  lemma CountAt(s: string, i: nat, count: string)
    requires count != "" && AllDigits(count) && At(s, i, count + "[")
    ensures var j := i + |count|;
      j < |s| && IsDigit(s[i]) && NumEnd(s, i) == j && s[j] == '[' && ValueIn(s, i, j) == Value(count)
  {
    var n := |count|;
    assert (count + "[")[n] == '[';
    AtSplit(s, i, count, "[");
    assert forall k :: i <= k < i + n ==> s[k] == count[k - i] && IsDigit(s[k]);
    ValueAt(s, i, count);
  }

  lemma LexCount(s: string, i: nat, count: string)
    requires count != "" && AllDigits(count) && At(s, i, count + "[")
    ensures i + |count| < |s| && Lex(s, i) == Num(Value(count), Open(Lex(s, i + |count| + 1)))
  {
    CountAt(s, i, count);
  }

  lemma LexChar(s: string, i: nat, c: char)
    requires At(s, i, [c]) && !IsDigit(c) && c != '['
    ensures i < |s| && Lex(s, i) == if c == ']' then Close(Lex(s, i + 1)) else Char(c, Lex(s, i + 1))
  {
    assert [c][0] == c;
  }

  /** Where the parts of a printed group stand. */
  lemma GroupParts(s: string, i: nat, t: Text)
    requires t.Repeat? && At(s, i, Print(t))
    ensures var k := i + |t.count| + 1 + |Print(t.body)|;
      && At(s, i, t.count + "[") && At(s, i + |t.count| + 1, Print(t.body))
      && At(s, k, "]") && At(s, k + 1, Print(t.next)) && k + 1 + |Print(t.next)| == i + |Print(t)|
  {
    AtSplit(s, i, t.count + "[" + Print(t.body) + "]", Print(t.next));
    AtSplit(s, i, t.count + "[" + Print(t.body), "]");
    AtSplit(s, i, t.count + "[", Print(t.body));
  }

  /** The tokens of a string in which a text stands begin with the text's tokens. */
  lemma {:induction false} LexPrints(s: string, i: nat, t: Text)
    requires WellFormed(t) && At(s, i, Print(t))
    ensures Lex(s, i) == TokensOf(t, Lex(s, i + |Print(t)|))
    decreases t, 1
  {
    match t
    case End =>
    case Letter(c, next) =>
      AtSplit(s, i, [c], Print(next));
      LexChar(s, i, c);
      LexPrints(s, i + 1, next);
    case Repeat(_, _, _) =>
      LexRepeat(s, i, t);
  }

  lemma LexRepeat(s: string, i: nat, t: Text)
    requires WellFormed(t) && t.Repeat? && At(s, i, Print(t))
    ensures Lex(s, i) == TokensOf(t, Lex(s, i + |Print(t)|))
    decreases t, 0
  {
    GroupParts(s, i, t);
    var k := i + |t.count| + 1 + |Print(t.body)| + 1;
    LexGroup(s, i, t.count, t.body);
    LexPrints(s, k, t.next);
  }

  lemma LexGroup(s: string, i: nat, count: string, body: Text)
    requires WellFormed(body) && count != "" && AllDigits(count)
    requires At(s, i, count + "[") && At(s, i + |count| + 1, Print(body)) && At(s, i + |count| + 1 + |Print(body)|, "]")
    ensures var k := i + |count| + 1 + |Print(body)|;
      k < |s| && Lex(s, i) == Num(Value(count), Open(TokensOf(body, Close(Lex(s, k + 1)))))
    decreases body, 2
  {
    LexCount(s, i, count);
    LexPrints(s, i + |count| + 1, body);
    LexChar(s, i + |count| + 1 + |Print(body)|, ']');
  }

  // ---------- The two-stack machine ----------

  /** The index of the last '[', or -1. */
  function LastOpen(chars: string): (p: int)
    ensures -1 <= p < |chars| && (forall k :: p < k < |chars| ==> chars[k] != '[') && (p >= 0 ==> chars[p] == '[')
  {
    if chars == "" then -1
    else if chars[|chars| - 1] == '[' then |chars| - 1
    else LastOpen(chars[..|chars| - 1])
  }

  /** What the machine returns with the given stacks and tokens to go; None when it gets stuck. */
  ghost function Run(ts: Tokens, chars: string, nums: seq<nat>): Option<string>
    decreases ts
  {
    match ts
    case Nil => Some(chars)
    case Num(value, rest) => if value >= 0 then Run(rest, chars, nums + [value]) else None
    case Open(rest) => Run(rest, chars + "[", nums)
    case Close(rest) =>
      var p := LastOpen(chars);
      if p >= 0 && nums != [] then
        Run(rest, chars[..p] + Times(nums[|nums| - 1], chars[p + 1..]), nums[..|nums| - 1])
      else None
    case Char(c, rest) => Run(rest, chars + [c], nums)
  }

  /** A closing bracket repeats what stands above the last opening one. */
  lemma RunClose(rest: Tokens, chars: string, inner: string, nums: seq<nat>, k: nat)
    requires '[' !in inner
    ensures Run(Close(rest), chars + "[" + inner, nums + [k]) == Run(rest, chars + Times(k, inner), nums)
  {
    var full, more := chars + "[" + inner, nums + [k];
    assert forall j :: |chars| < j < |full| ==> full[j] == inner[j - |chars| - 1] && full[j] in inner;
    assert full[|chars|] == '[';
    assert LastOpen(full) == |chars|;
    assert full[|chars| + 1..] == inner && full[..|chars|] == chars && more[..|nums|] == nums;
  }

  /** Running over a text appends its expansion and leaves the stacks below alone. */
  lemma {:induction false} RunExpands(t: Text, rest: Tokens, chars: string, nums: seq<nat>)
    requires WellFormed(t)
    ensures Run(TokensOf(t, rest), chars, nums) == Run(rest, chars + Expand(t), nums)
    decreases t, 0
  {
    match t
    case End =>
      assert chars + Expand(t) == chars;
    case Letter(c, next) =>
      RunExpands(next, rest, chars + [c], nums);
      assert chars + [c] + Expand(next) == chars + Expand(t);
    case Repeat(count, body, next) =>
      var tail, out := TokensOf(next, rest), Times(RepeatCount(count), Expand(body));
      RunGroup(count, body, tail, chars, nums);
      RunExpands(next, rest, chars + out, nums);
      assert chars + out + Expand(next) == chars + Expand(t);
  }

  /** Running over a group appends its body so many times. */
  lemma RunGroup(count: string, body: Text, tail: Tokens, chars: string, nums: seq<nat>)
    requires WellFormed(body) && AllDigits(count)
    ensures Run(Num(Value(count), Open(TokensOf(body, Close(tail)))), chars, nums)
         == Run(tail, chars + Times(RepeatCount(count), Expand(body)), nums)
    decreases body, 1
  {
    var k := RepeatCount(count);
    ExpandHasNo(body, '[');
    RunExpands(body, Close(tail), chars + "[", nums + [k]);
    RunClose(tail, chars, Expand(body), nums, k);
  }

  lemma MachineDecodes(s: string, t: Text)
    requires WellFormed(t) && s == Print(t)
    ensures Run(Lex(s, 0), "", []) == Some(Expand(t))
  {
    assert s[0..|s|] == s;
    LexPrints(s, 0, t);
    RunExpands(t, Nil, "", []);
    assert "" + Expand(t) == Expand(t);
  }

  /** A string encodes at most one result. */
  lemma DecodingIsUnique(t: Text, u: Text)
    requires WellFormed(t) && WellFormed(u) && Print(t) == Print(u)
    ensures Expand(t) == Expand(u)
  {
    MachineDecodes(Print(t), t);
    MachineDecodes(Print(u), u);
  }

  // ---------- func ----------

  function Reversed(s: string): (r: string)
    ensures |r| == |s| && forall k :: 0 <= k < |s| ==> r[k] == s[|s| - 1 - k]
  {
    seq(|s|, k requires 0 <= k < |s| => s[|s| - 1 - k])
  }

  lemma ReversedMore(s: string, c: char)
    ensures Reversed(s + [c]) == [c] + Reversed(s)
  {
  }

  /** The number that stands at i, and where its '[' is. */
  method ReadNumber(s: string, i: nat) returns (k: int, j: nat)
    requires i <= |s|
    ensures j == NumEnd(s, i) && k == ValueIn(s, i, j)
  {
    j, k := i, 0;
    while j < |s| && s[j] != '['
      invariant i <= j <= |s| && k == ValueIn(s, i, j) && forall x :: i <= x < j ==> s[x] != '['
    {
      k := k * 10 + (s[j] as int - '0' as int);
      j := j + 1;
    }
  }

  /** Pops the characters above the last '[', and the bracket. */
  method PopGroup(charStack: string) returns (rest: string, inner: string)
    requires LastOpen(charStack) >= 0
    ensures rest == charStack[..LastOpen(charStack)] && inner == charStack[LastOpen(charStack) + 1..]
  {
    rest, inner := charStack, "";
    while rest != "" && rest[|rest| - 1] != '['
      invariant LastOpen(charStack) < |rest| <= |charStack|
      invariant rest == charStack[..|rest|] && Reversed(inner) == charStack[|rest|..]
      decreases |rest|
    {
      ReversedMore(inner, rest[|rest| - 1]);
      inner := inner + [rest[|rest| - 1]];
      rest := rest[..|rest| - 1];
    }
    rest := rest[..|rest| - 1];
    inner := Reversed(inner);
  }

  /** Pops everything and reverses what was popped. */
  method PopAll(charStack: string) returns (ans: string)
    ensures ans == charStack
  {
    ans := "";
    var rest := charStack;
    while rest != ""
      invariant |rest| <= |charStack| && rest == charStack[..|rest|] && Reversed(ans) == charStack[|rest|..]
      decreases |rest|
    {
      ReversedMore(ans, rest[|rest| - 1]);
      ans := ans + [rest[|rest| - 1]];
      rest := rest[..|rest| - 1];
    }
    ans := Reversed(ans);
  }

  /** A string so many times, after what is there already. */
  method Append(ans: string, k: nat, s: string) returns (r: string)
    ensures r == ans + Times(k, s)
  {
    r := ans;
    var left := k;
    while left > 0
      invariant 0 <= left <= k && r == ans + Times(k - left, s)
    {
      assert r + s == ans + (Times(k - left, s) + s);
      r := r + s;
      left := left - 1;
    }
  }

  /** Decoding with a stack of characters and a stack of counts, the tops at the end. */
  method Func(s: string, ghost t: Text) returns (ans: string)
    requires WellFormed(t) && s == Print(t)
    ensures ans == Expand(t)
  {
    MachineDecodes(s, t);
    var numStack: seq<nat>, charStack := [], "";
    var i := 0;
    while i < |s|
      invariant i <= |s| && Run(Lex(s, i), charStack, numStack) == Some(Expand(t))
      decreases |s| - i
    {
      var c := s[i];
      if '0' <= c <= '9' {
        var k, j := ReadNumber(s, i);
        numStack := numStack + [k];
        i := j;
      } else {
        if c == '[' {
          charStack := charStack + [c];
        } else if c == ']' {
          var sTmp;
          charStack, sTmp := PopGroup(charStack);
          var kTmp := numStack[|numStack| - 1];
          numStack := numStack[..|numStack| - 1];
          var sIn := Append("", kTmp, sTmp);
          assert sIn == Times(kTmp, sTmp);
          charStack := charStack + sIn;
        } else {
          charStack := charStack + [c];
        }
        i := i + 1;
      }
    }
    ans := PopAll(charStack);
  }

  // ---------- func_recursion ----------

  lemma PrintStarts(s: string, i: nat, t: Text)
    requires WellFormed(t) && At(s, i, Print(t))
    ensures t.End? <==> Print(t) == ""
    ensures t.Letter? ==> s[i] == t.c && At(s, i + 1, Print(t.next))
    ensures t.Repeat? ==> s[i] == t.count[0] && IsDigit(s[i])
  {
    match t
    case End =>
    case Letter(c, next) =>
      AtSplit(s, i, [c], Print(next));
      assert [c][0] == c;
    case Repeat(count, _, next) =>
      GroupParts(s, i, t);
      assert (count + "[")[0] == count[0];
  }

  /** What the recursion meets when a group stands at i. */
  lemma GroupAt(s: string, i: nat, t: Text)
    requires WellFormed(t) && t.Repeat? && At(s, i, Print(t))
    ensures var j := NumEnd(s, i);
      && i < j < |s| && At(s, j + 1, Print(t.body)) && j + 1 + |Print(t.body)| < |s|
        && s[j + 1 + |Print(t.body)|] == ']'
      && At(s, j + 1 + |Print(t.body)| + 1, Print(t.next))
      && j + 1 + |Print(t.body)| + 1 + |Print(t.next)| == i + |Print(t)|
      && ValueIn(s, i, j) == RepeatCount(t.count)
  {
    GroupParts(s, i, t);
    CountAt(s, i, t.count);
    assert "]"[0] == ']';
  }

  lemma ExpandOn(ans: string, t: Text)
    requires WellFormed(t)
    ensures t.End? ==> ans + Expand(t) == ans
    ensures t.Letter? ==> ans + Expand(t) == ans + [t.c] + Expand(t.next)
    ensures t.Repeat? ==> ans + Expand(t) == ans + Times(RepeatCount(t.count), Expand(t.body)) + Expand(t.next)
  {
  }

  /** rest stands at pos and ends at end, before a ']' or the end of the string; with what is decoded it makes all. */
  ghost predicate ToGo(s: string, pos: nat, rest: Text, end: nat, ans: string, all: string) {
    && WellFormed(rest) && At(s, pos, Print(rest)) && pos + |Print(rest)| == end
    && (end == |s| || (end < |s| && s[end] == ']'))
    && ans + Expand(rest) == all
  }

  /** What the next character tells. */
  lemma NextIs(s: string, pos: nat, rest: Text, end: nat, ans: string, all: string)
    requires ToGo(s, pos, rest, end, ans, all)
    ensures rest.End? <==> pos == end
    ensures pos < |s| ==>
      if IsAlpha(s[pos]) then rest.Letter? else if IsDigit(s[pos]) then rest.Repeat? else rest.End? && s[pos] == ']'
    ensures pos >= |s| ==> rest.End?
  {
    PrintStarts(s, pos, rest);
  }

  lemma LetterOn(s: string, pos: nat, rest: Text, end: nat, ans: string, all: string)
    requires ToGo(s, pos, rest, end, ans, all) && pos < |s| && IsAlpha(s[pos])
    ensures rest.Letter? && ToGo(s, pos + 1, rest.next, end, ans + [s[pos]], all)
  {
    NextIs(s, pos, rest, end, ans, all);
    PrintStarts(s, pos, rest);
    ExpandOn(ans, rest);
  }

  lemma NoneToGo(s: string, pos: nat, rest: Text, end: nat, ans: string, all: string)
    requires ToGo(s, pos, rest, end, ans, all) && (pos < |s| ==> s[pos] == ']')
    ensures ans == all && pos == end
  {
    NextIs(s, pos, rest, end, ans, all);
    ExpandOn(ans, rest);
  }

  /** Decodes the text at pos, up to the end of the string or past the ']' behind it. */
  method FuncRecursion(s: string, pos0: nat, ghost t: Text) returns (ans: string, pos: nat)
    requires WellFormed(t) && At(s, pos0, Print(t))
    requires pos0 + |Print(t)| == |s| || s[pos0 + |Print(t)|] == ']'
    ensures ans == Expand(t)
    ensures pos == if pos0 + |Print(t)| == |s| then |s| else pos0 + |Print(t)| + 1
    decreases |s| - pos0, 2
  {
    ghost var end, all := pos0 + |Print(t)|, Expand(t);
    assert "" + all == all;
    ans, pos := Items(s, pos0, t, end, all);
  }

  method Items(s: string, pos0: nat, ghost t: Text, ghost end: nat, ghost all: string) returns (ans: string, pos: nat)
    requires ToGo(s, pos0, t, end, "", all)
    ensures ans == all && pos == if end == |s| then |s| else end + 1
    decreases |s| - pos0, 1
  {
    ans, pos := "", pos0;
    ghost var rest := t;
    while pos < |s|
      invariant pos0 <= pos && ToGo(s, pos, rest, end, ans, all)
      decreases |s| - pos
    {
      var c := s[pos];
      if IsAlpha(c) {
        LetterOn(s, pos, rest, end, ans, all);
        ans := ans + [c];
        pos := pos + 1;
        rest := rest.next;
      } else if IsDigit(c) {
        ans, pos, rest := Group(s, pos, ans, rest, end, all);
      } else if c == ']' {
        NoneToGo(s, pos, rest, end, ans, all);
        pos := pos + 1;
        return;
      } else {
        NextIs(s, pos, rest, end, ans, all);
        assert false;
      }
    }
    NoneToGo(s, pos, rest, end, ans, all);
  }

  /** Reads the count, decodes between the brackets by recursion and appends that so many times. */
  method Group(s: string, pos0: nat, ans0: string, ghost t: Text, ghost end: nat, ghost all: string)
    returns (ans: string, pos: nat, ghost rest: Text)
    requires ToGo(s, pos0, t, end, ans0, all) && pos0 < |s| && IsDigit(s[pos0])
    ensures pos0 < pos <= |s| && ToGo(s, pos, rest, end, ans, all)
    decreases |s| - pos0, 0
  {
    NextIs(s, pos0, t, end, ans0, all);
    GroupAt(s, pos0, t);
    ExpandOn(ans0, t);
    rest := t.next;
    var k, j := ReadNumber(s, pos0);
    var res;
    res, pos := FuncRecursion(s, j + 1, t.body);
    ans := Append(ans0, k, res);
  }
}
