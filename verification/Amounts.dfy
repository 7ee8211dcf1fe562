/**
 * Reading money back out of a token, whatever became of its separators.
 *
 * Tokens are ASCII. Amounts are whole paise.
 */
module Amounts {
  import opened Domain

  predicate IsDigit(c: char) {
    '0' <= c <= '9'
  }

  predicate IsSeparator(c: char) {
    c == '.' || c == ','
  }

  predicate IsBracketOrSign(c: char) {
    c == '(' || c == ')' || c == '-'
  }

  predicate AllDigits(s: string) {
    forall i :: 0 <= i < |s| ==> IsDigit(s[i])
  }

  function StripLeft(s: string): (t: string)
    ensures t == [] || !IsBracketOrSign(t[0])
    ensures s == [] || !IsBracketOrSign(s[0]) ==> t == s
  {
    if s != [] && IsBracketOrSign(s[0]) then StripLeft(s[1..]) else s
  }

  function StripRight(s: string): (t: string)
    ensures s == [] || !IsBracketOrSign(s[|s| - 1]) ==> t == s
  {
    if s != [] && IsBracketOrSign(s[|s| - 1]) then StripRight(s[..|s| - 1]) else s
  }

  /** The token without the brackets and signs around it. */
  function Body(token: string): string {
    StripRight(StripLeft(token))
  }

  /** The position of the last separator, or -1. */
  function LastSeparator(s: string): (k: int)
    ensures -1 <= k < |s|
    ensures k >= 0 ==> IsSeparator(s[k])
    ensures forall i :: k < i < |s| ==> !IsSeparator(s[i])
  {
    if s == [] then -1
    else if IsSeparator(s[|s| - 1]) then |s| - 1
    else LastSeparator(s[..|s| - 1])
  }

  function WithoutSeparators(s: string): (t: string)
    ensures |t| <= |s|
  {
    if s == [] then []
    else
      var t := WithoutSeparators(s[..|s| - 1]);
      if IsSeparator(s[|s| - 1]) then t else t + [s[|s| - 1]]
  }

  function DigitValue(c: char): nat
    requires IsDigit(c)
  {
    c as int - '0' as int
  }

  function NumberOf(digits: string): nat
    requires AllDigits(digits)
  {
    if digits == [] then 0
    else 10 * NumberOf(digits[..|digits| - 1]) + DigitValue(digits[|digits| - 1])
  }

  /** Paise in a one- or two-digit fraction, where a single digit means tenths. */
  function FractionPaise(fraction: string): nat
    requires AllDigits(fraction)
  {
    if |fraction| == 1 then 10 * NumberOf(fraction) else NumberOf(fraction)
  }

  predicate IsNegative(token: string) {
    token != [] && (token[0] == '-' || (token[0] == '(' && token[|token| - 1] == ')'))
  }

  /**
   * A body cut at its decimal point: one or two digits after the final separator make it the
   * point, any other number makes it a thousands separator like the ones before it.
   */
  function Parts(body: string): (string, string) {
    var last := LastSeparator(body);
    if last >= 0 && 1 <= |body| - last - 1 <= 2 then (body[..last], body[last + 1..])
    else (body, [])
  }

  function Magnitude(rupees: string, fraction: string): Option<nat> {
    var digits, paise := WithoutSeparators(rupees), WithoutSeparators(fraction);
    if digits == [] || !AllDigits(digits) || !AllDigits(paise) then None
    else Some(100 * NumberOf(digits) + FractionPaise(paise))
  }

  function ToPaise(token: string): Option<int> {
    var body := Body(token);
    if body == [] || !IsDigit(body[0]) then None
    else
      var parts := Parts(body);
      var magnitude := Magnitude(parts.0, parts.1);
      if magnitude.None? then None
      else if IsNegative(token) then Some(-(magnitude.value as int))
      else Some(magnitude.value)
  }

  // Printing

  function DigitChar(d: nat): (c: char)
    requires d < 10
    ensures IsDigit(c) && DigitValue(c) == d
  {
    "0123456789"[d]
  }

  /** A number's decimal digits, with no leading zero except for zero itself. */
  function Digits(n: nat): (s: string)
    ensures |s| > 0 && AllDigits(s)
    ensures NumberOf(s) == n
  {
    if n < 10 then [DigitChar(n)] else Digits(n / 10) + [DigitChar(n % 10)]
  }

  function TwoDigits(n: nat): (s: string)
    requires n < 100
    ensures |s| == 2 && AllDigits(s) && NumberOf(s) == n
  {
    var s := [DigitChar(n / 10), DigitChar(n % 10)];
    assert s[..1] == [DigitChar(n / 10)] && s[..1][..0] == [];
    assert NumberOf(s[..1]) == n / 10;
    s
  }

  /** The digits in `groups`, run together. */
  function Flatten(groups: seq<string>): string {
    if groups == [] then [] else Flatten(groups[..|groups| - 1]) + groups[|groups| - 1]
  }

  /** The groups with a comma between each and the next. */
  function Join(groups: seq<string>): string {
    if groups == [] then []
    else if |groups| == 1 then groups[0]
    else Join(groups[..|groups| - 1]) + [','] + groups[|groups| - 1]
  }

  /** One way of grouping some digits: Indian, western or any other. */
  predicate IsGrouping(groups: seq<string>, digits: string) {
    && groups != []
    && (forall k :: 0 <= k < |groups| ==> groups[k] != [] && AllDigits(groups[k]))
    && Flatten(groups) == digits
  }

  /** Two decimals after rupees grouped in some way. */
  function Print(groups: seq<string>, paise: nat): string
    requires paise < 100
  {
    Join(groups) + ['.'] + TwoDigits(paise)
  }

  function Swapped(c: char): char {
    if c == '.' then ',' else if c == ',' then '.' else c
  }

  /** What a crease or a scan does: any of the separators may come back as the other one. */
  function Damaged(s: string, flips: set<nat>): (t: string)
    ensures |t| == |s|
    ensures forall i :: 0 <= i < |s| ==> t[i] == if i in flips then Swapped(s[i]) else s[i]
  {
    seq(|s|, i requires 0 <= i < |s| => if i in flips then Swapped(s[i]) else s[i])
  }

  // Facts about tokens

  lemma WithoutSeparatorsConcat(s: string, t: string)
    ensures WithoutSeparators(s + t) == WithoutSeparators(s) + WithoutSeparators(t)
  {
    if t == [] {
      assert s + t == s;
    } else {
      var n := |t| - 1;
      assert (s + t)[..|s + t| - 1] == s + t[..n];
      WithoutSeparatorsConcat(s, t[..n]);
    }
  }

  lemma {:induction false} DigitsAreKept(s: string)
    requires AllDigits(s)
    ensures WithoutSeparators(s) == s
  {
    if s != [] {
      DigitsAreKept(s[..|s| - 1]);
    }
  }

  lemma {:induction false} DamageIsInvisible(s: string, flips: set<nat>)
    ensures WithoutSeparators(Damaged(s, flips)) == WithoutSeparators(s)
  {
    if s != [] {
      var n := |s| - 1;
      assert Damaged(s, flips)[..n] == Damaged(s[..n], flips);
      DamageIsInvisible(s[..n], flips);
    }
  }

  lemma {:induction false} GroupingIsInvisible(groups: seq<string>, digits: string)
    requires IsGrouping(groups, digits)
    ensures WithoutSeparators(Join(groups)) == digits
    ensures digits != [] && AllDigits(digits)
    ensures Join(groups) != [] && IsDigit(Join(groups)[0])
  {
    var k := |groups| - 1;
    if k == 0 {
      assert Flatten(groups[..0]) == [];
      assert Flatten(groups) == groups[0];
      DigitsAreKept(groups[0]);
    } else {
      GroupingIsInvisible(groups[..k], Flatten(groups[..k]));
      SeparatorIsDropped(Join(groups[..k]), ',', groups[k]);
    }
  }

  lemma LastSeparatorIs(s: string, k: nat)
    requires k < |s| && IsSeparator(s[k])
    requires forall i :: k < i < |s| ==> !IsSeparator(s[i])
    ensures LastSeparator(s) == k
  {
    var last := LastSeparator(s);
    assert !(last < k) && !(k < last);
  }

  /** What a token reads as, from where it is cut and what its parts hold without separators. */
  lemma PlainTokenReads(token: string, rupees: string, digits: string, paise: string, amount: nat)
    requires token != [] && IsDigit(token[0]) && IsDigit(token[|token| - 1])
    requires Parts(token) == (rupees, paise)
    requires WithoutSeparators(rupees) == digits && digits != [] && AllDigits(digits) && AllDigits(paise)
    requires amount == 100 * NumberOf(digits) + FractionPaise(paise)
    ensures ToPaise(token) == Some(amount)
  {
    PlainTokenIsItsBody(token);
    DigitsAreKept(paise);
    assert Magnitude(rupees, paise) == Some(amount);
  }

  lemma PlainTokenIsItsBody(token: string)
    requires token != [] && IsDigit(token[0]) && IsDigit(token[|token| - 1])
    ensures Body(token) == token && !IsNegative(token)
  {
    assert StripLeft(token) == token;
  }

  /** Where a token is cut whose last separator is at `k`. */
  lemma PartsAt(token: string, k: nat)
    requires k < |token| && IsSeparator(token[k]) && AllDigits(token[k + 1..])
    ensures Parts(token) == if 1 <= |token| - k - 1 <= 2 then (token[..k], token[k + 1..]) else (token, [])
  {
    assert forall i :: k < i < |token| ==> token[i] == token[k + 1..][i - k - 1];
    LastSeparatorIs(token, k);
  }

  lemma SeparatorIsDropped(front: string, sep: char, tail: string)
    requires IsSeparator(sep) && AllDigits(tail)
    ensures WithoutSeparators(front + [sep] + tail) == WithoutSeparators(front) + tail
  {
    DigitsAreKept(tail);
    WithoutSeparatorsConcat(front + [sep], tail);
    WithoutSeparatorsConcat(front, [sep]);
    assert [sep][..0] == [];
  }

  /** Where a damaged token is cut, and what it holds without its separators. */
  lemma DamagedTokenIsCut(front: string, sep: char, tail: string, flips: set<nat>)
    requires front != [] && IsDigit(front[0])
    requires IsSeparator(sep) && tail != [] && AllDigits(tail)
    ensures var token := Damaged(front + [sep] + tail, flips);
      && IsDigit(token[0]) && IsDigit(token[|token| - 1])
      && Parts(token) == (if |tail| <= 2 then (Damaged(front, flips), tail) else (token, []))
  {
    DamagedParts(front, sep, tail, flips);
    PartsAt(Damaged(front + [sep] + tail, flips), |front|);
  }

  lemma DamagedParts(front: string, sep: char, tail: string, flips: set<nat>)
    requires front != [] && IsSeparator(sep) && AllDigits(tail) && tail != []
    ensures var token := Damaged(front + [sep] + tail, flips);
      && IsSeparator(token[|front|]) && (IsDigit(front[0]) ==> IsDigit(token[0]))
      && token[..|front|] == Damaged(front, flips) && token[|front| + 1..] == tail
      && IsDigit(token[|token| - 1])
  {
    var s := front + [sep] + tail;
    assert s[..|front|] == front && s[|front| + 1..] == tail;
    DamagedFront(s, |front|, flips);
    DamagedDigits(s, |front| + 1, flips);
    assert s[0] == front[0];
  }

  lemma DamagedFront(s: string, k: nat, flips: set<nat>)
    requires k <= |s|
    ensures Damaged(s, flips)[..k] == Damaged(s[..k], flips)
  {
  }

  lemma DamagedDigits(s: string, k: nat, flips: set<nat>)
    requires k < |s| && AllDigits(s[k..])
    ensures Damaged(s, flips)[k..] == s[k..]
    ensures IsDigit(Damaged(s, flips)[|s| - 1])
  {
    forall i | k <= i < |s|
      ensures Damaged(s, flips)[i] == s[i] && IsDigit(s[i])
    {
      assert s[i] == s[k..][i - k];
    }
  }

  /**
   * A printed amount survives any grouping and any damage to its separators: however its digits
   * were grouped, and whichever separators came back as the other one, it reads as itself.
   */
  lemma DamagedPrintReadsBack(amount: nat, groups: seq<string>, flips: set<nat>)
    requires IsGrouping(groups, Digits(amount / 100))
    ensures ToPaise(Damaged(Print(groups, amount % 100), flips)) == Some(amount)
  {
    var front, tail := Join(groups), TwoDigits(amount % 100);
    GroupingIsInvisible(groups, Digits(amount / 100));
    DamagedTokenIsCut(front, '.', tail, flips);
    DamageIsInvisible(front, flips);
    RupeesAndPaise(amount);
    PlainTokenReads(Damaged(front + ['.'] + tail, flips), Damaged(front, flips), Digits(amount / 100), tail, amount);
  }

  lemma RupeesAndPaise(amount: nat)
    ensures 100 * (amount / 100) + amount % 100 == amount
  {
  }

  lemma {:induction false} NumberOfConcat(s: string, t: string)
    requires AllDigits(s) && AllDigits(t)
    ensures |t| == 1 ==> NumberOf(s + t) == 10 * NumberOf(s) + NumberOf(t)
    ensures |t| == 2 ==> NumberOf(s + t) == 100 * NumberOf(s) + NumberOf(t)
  {
    if |t| == 1 {
      assert (s + t)[..|s|] == s && t[..0] == [];
    } else if |t| == 2 {
      NumberOfConcat(s, t[..1]);
      assert (s + t)[..|s| + 1] == s + t[..1];
    }
  }

  lemma {:induction false} LeadingDigitsAreNotZero(n: nat, k: nat)
    requires 0 < k < |Digits(n)|
    ensures NumberOf(Digits(n)[..k]) > 0
  {
    assert Digits(n)[..|Digits(n)| - 1] == Digits(n / 10);
    if k < |Digits(n)| - 1 {
      assert Digits(n)[..k] == Digits(n / 10)[..k];
      LeadingDigitsAreNotZero(n / 10, k);
    } else {
      assert Digits(n)[..k] == Digits(n / 10);
    }
  }

  lemma UngroupedReads(digits: string, flips: set<nat>)
    requires digits != [] && AllDigits(digits)
    ensures ToPaise(Damaged(digits, flips)) == Some(100 * NumberOf(digits))
  {
    DamagedDigits(digits, 0, flips);
    assert Damaged(digits, flips)[0..] == Damaged(digits, flips) && digits[0..] == digits;
    DigitsAreKept(digits);
    var last := LastSeparator(digits);
    assert last == -1;
    PlainTokenReads(digits, digits, digits, [], 100 * NumberOf(digits));
  }

  lemma LastGroupReads(front: string, lead: string, tail: string, flips: set<nat>)
    requires front != [] && IsDigit(front[0]) && WithoutSeparators(front) == lead
    requires lead != [] && AllDigits(lead) && tail != [] && AllDigits(tail)
    ensures ToPaise(Damaged(front + [','] + tail, flips))
            == if |tail| <= 2 then Some(100 * NumberOf(lead) + FractionPaise(tail))
               else Some(100 * NumberOf(lead + tail))
  {
    var token := Damaged(front + [','] + tail, flips);
    DamagedTokenIsCut(front, ',', tail, flips);
    if |tail| <= 2 {
      DamageIsInvisible(front, flips);
      PlainTokenReads(token, Damaged(front, flips), lead, tail, 100 * NumberOf(lead) + FractionPaise(tail));
    } else {
      DamageIsInvisible(front + [','] + tail, flips);
      SeparatorIsDropped(front, ',', tail);
      PlainTokenReads(token, token, lead + tail, [], 100 * NumberOf(lead + tail));
    }
  }

  /**
   * A whole-rupee print is ambiguous: it reads back as itself exactly when it is not grouped, or
   * its last group has three digits or more. A last group of one or two digits reads as paise.
   */
  lemma WholeRupeesReadBackExactly(rupees: nat, groups: seq<string>, flips: set<nat>)
    requires IsGrouping(groups, Digits(rupees))
    ensures ToPaise(Damaged(Join(groups), flips)) == Some(100 * rupees)
       <==> |groups| == 1 || |groups[|groups| - 1]| > 2
  {
    var k := |groups| - 1;
    var lead, tail := Flatten(groups[..k]), groups[k];
    if k == 0 {
      assert Flatten(groups[..0]) + tail == tail;
      UngroupedReads(tail, flips);
    } else {
      GroupingIsInvisible(groups[..k], lead);
      LastGroupReads(Join(groups[..k]), lead, tail, flips);
      assert lead == Digits(rupees)[..|lead|];
      NumberOfConcat(lead, tail);
      LeadingDigitsAreNotZero(rupees, |lead|);
    }
  }

  /** One decimal means tenths of a rupee. */
  lemma OneDecimalReadsAsTenths(digits: string, groups: seq<string>, d: char, flips: set<nat>)
    requires IsGrouping(groups, digits) && IsDigit(d)
    ensures AllDigits(digits)
    ensures ToPaise(Damaged(Join(groups) + ['.'] + [d], flips)) == Some(100 * NumberOf(digits) + 10 * DigitValue(d))
  {
    GroupingIsInvisible(groups, digits);
    TenthsRead(Join(groups), digits, d, flips);
  }

  lemma TenthsRead(front: string, digits: string, d: char, flips: set<nat>)
    requires front != [] && IsDigit(front[0]) && WithoutSeparators(front) == digits && IsDigit(d)
    requires digits != [] && AllDigits(digits)
    ensures ToPaise(Damaged(front + ['.'] + [d], flips)) == Some(100 * NumberOf(digits) + 10 * DigitValue(d))
  {
    DamagedTokenIsCut(front, '.', [d], flips);
    DamageIsInvisible(front, flips);
    TenthsPaise(d);
    PlainTokenReads(Damaged(front + ['.'] + [d], flips), Damaged(front, flips), digits, [d],
                    100 * NumberOf(digits) + FractionPaise([d]));
  }

  lemma TenthsPaise(d: char)
    requires IsDigit(d)
    ensures AllDigits([d]) && FractionPaise([d]) == 10 * DigitValue(d)
  {
    assert [d][..0] == [];
    assert NumberOf([d]) == 10 * NumberOf([d][..0]) + DigitValue(d);
  }

  lemma NumberOfTwo(c: char, d: char)
    requires IsDigit(c) && IsDigit(d)
    ensures AllDigits([c, d]) && NumberOf([c, d]) == 10 * DigitValue(c) + DigitValue(d)
  {
    assert [c, d][..1] == [c] && [c][..0] == [];
    assert NumberOf([c]) == 10 * NumberOf([c][..0]) + DigitValue(c);
  }

  /** Twelve rupees fifty, with either separator. */
  lemma TwelveFiftyReads()
    ensures ToPaise("12.50") == ToPaise("12,50") == Some(1250)
  {
    NumberOfTwo('1', '2');
    NumberOfTwo('5', '0');
    assert "12.50"[3..] == "12,50"[3..] == ['5', '0'] && "12.50"[..2] == "12,50"[..2] == ['1', '2'];
    PartsAt("12.50", 2);
    PartsAt("12,50", 2);
    DigitsAreKept(['1', '2']);
    PlainTokenReads("12.50", ['1', '2'], ['1', '2'], ['5', '0'], 1250);
    PlainTokenReads("12,50", ['1', '2'], ['1', '2'], ['5', '0'], 1250);
  }

  // Brackets and signs

  predicate AllMarks(s: string) {
    forall i :: 0 <= i < |s| ==> s[i] == '(' || s[i] == ')' || s[i] == '-'
  }

  lemma {:induction false} LeadIsStripped(lead: string, core: string)
    requires AllMarks(lead) && (core == [] || !IsBracketOrSign(core[0]))
    ensures StripLeft(lead + core) == core
  {
    if lead == [] {
      assert lead + core == core;
    } else {
      assert (lead + core)[1..] == lead[1..] + core;
      LeadIsStripped(lead[1..], core);
    }
  }

  lemma {:induction false} TrailIsStripped(core: string, trail: string)
    requires AllMarks(trail) && (core == [] || !IsBracketOrSign(core[|core| - 1]))
    ensures StripRight(core + trail) == core
  {
    if trail == [] {
      assert core + trail == core;
    } else {
      var n := |trail| - 1;
      assert (core + trail)[..|core + trail| - 1] == core + trail[..n];
      TrailIsStripped(core, trail[..n]);
    }
  }

  lemma BodyIsBetween(lead: string, core: string, trail: string)
    requires AllMarks(lead) && AllMarks(trail) && core != []
    requires !IsBracketOrSign(core[0]) && !IsBracketOrSign(core[|core| - 1])
    ensures Body(lead + core + trail) == core == Body(core)
  {
    assert lead + core + trail == lead + (core + trail);
    LeadIsStripped(lead, core + trail);
    TrailIsStripped(core, trail);
  }

  /** A minus in front makes it negative, and so do brackets on both sides. */
  predicate MeansNegative(lead: string, trail: string) {
    lead != [] && (lead[0] == '-' || (lead[0] == '(' && trail != [] && trail[|trail| - 1] == ')'))
  }

  /** Brackets and signs around a token decide its sign and nothing else. */
  lemma MarksDecideTheSign(lead: string, core: string, trail: string)
    requires AllMarks(lead) && AllMarks(trail) && core != []
    requires !IsBracketOrSign(core[0]) && !IsBracketOrSign(core[|core| - 1])
    ensures ToPaise(lead + core + trail).Some? <==> ToPaise(core).Some?
    ensures ToPaise(core).Some? ==>
              ToPaise(lead + core + trail).value
              == if MeansNegative(lead, trail) then -ToPaise(core).value else ToPaise(core).value
  {
    BodyIsBetween(lead, core, trail);
    SignIsRead(lead, core, trail);
    SignIsRead([], core, []);
    assert [] + core + [] == core;
  }

  lemma SignIsRead(lead: string, core: string, trail: string)
    requires AllMarks(lead) && AllMarks(trail) && core != []
    requires !IsBracketOrSign(core[0]) && !IsBracketOrSign(core[|core| - 1])
    ensures IsNegative(lead + core + trail) <==> MeansNegative(lead, trail)
  {
    var token := lead + core + trail;
    assert lead != [] ==> token[0] == lead[0];
    assert lead == [] ==> token[0] == core[0];
    assert trail != [] ==> token[|token| - 1] == trail[|trail| - 1];
    assert trail == [] ==> token[|token| - 1] == core[|core| - 1];
  }

  lemma MarkedTokenReads(lead: string, token: string, trail: string, amount: nat)
    requires AllMarks(lead) && AllMarks(trail) && ToPaise(token) == Some(amount)
    requires token != [] && !IsBracketOrSign(token[0]) && !IsBracketOrSign(token[|token| - 1])
    ensures ToPaise(lead + token + trail) == Some(if MeansNegative(lead, trail) then 0 - amount else amount)
  {
    MarksDecideTheSign(lead, token, trail);
  }

  /** A printed amount among brackets and signs reads as itself, or as its negative when they mean that. */
  lemma SignedPrintReadsBack(amount: nat, groups: seq<string>, flips: set<nat>, lead: string, trail: string)
    requires IsGrouping(groups, Digits(amount / 100)) && AllMarks(lead) && AllMarks(trail)
    ensures ToPaise(lead + Damaged(Print(groups, amount % 100), flips) + trail)
         == Some(if MeansNegative(lead, trail) then 0 - amount else amount)
  {
    MarkedTokenReads(lead, Damaged(Print(groups, amount % 100), flips), trail, amount) by {
      DamagedPrintReadsBack(amount, groups, flips);
      PrintHasNoMarks(groups, amount % 100, flips, Digits(amount / 100));
    }
  }

  lemma PrintHasNoMarks(groups: seq<string>, paise: nat, flips: set<nat>, digits: string)
    requires IsGrouping(groups, digits) && paise < 100
    ensures var printed := Damaged(Print(groups, paise), flips);
      printed != [] && !IsBracketOrSign(printed[0]) && !IsBracketOrSign(printed[|printed| - 1])
  {
    GroupingIsInvisible(groups, digits);
    DamagedTokenIsCut(Join(groups), '.', TwoDigits(paise), flips);
  }

  // Which tokens read as amounts at all

  lemma {:induction false} OnlyDigitsAreLeftExactly(s: string)
    ensures AllDigits(WithoutSeparators(s)) <==> forall i :: 0 <= i < |s| ==> IsDigit(s[i]) || IsSeparator(s[i])
    ensures s != [] && IsDigit(s[0]) ==> WithoutSeparators(s) != []
  {
    if s != [] {
      var n := |s| - 1;
      OnlyDigitsAreLeftExactly(s[..n]);
      assert AllDigits(WithoutSeparators(s[..n]) + [s[n]])
        <==> AllDigits(WithoutSeparators(s[..n])) && IsDigit(s[n]) by {
        AllDigitsPushed(WithoutSeparators(s[..n]), s[n]);
      }
    }
  }

  lemma AllDigitsPushed(s: string, c: char)
    ensures AllDigits(s + [c]) <==> AllDigits(s) && IsDigit(c)
  {
    if AllDigits(s + [c]) {
      assert (s + [c])[|s|] == c;
      assert forall i :: 0 <= i < |s| ==> (s + [c])[i] == s[i];
    }
  }

  /**
   * Between its brackets and signs a token reads as an amount exactly when it starts with a digit and
   * has nothing in it but digits and separators.
   */
  lemma ReadsExactly(token: string)
    requires token != [] && !IsBracketOrSign(token[0]) && !IsBracketOrSign(token[|token| - 1])
    ensures ToPaise(token).Some?
       <==> && '0' <= token[0] <= '9'
            && forall i :: 0 <= i < |token| ==> '0' <= token[i] <= '9' || token[i] == '.' || token[i] == ','
  {
    BodyIsBetween([], token, []);
    assert [] + token + [] == token;
    var (rupees, fraction) := Parts(token);
    if IsDigit(token[0]) {
      PartsKeepTheStart(token);
      OnlyDigitsAreLeftExactly(rupees);
      OnlyDigitsAreLeftExactly(fraction);
      PartsHoldTheToken(token, rupees, fraction);
    }
  }

  lemma PartsKeepTheStart(token: string)
    requires token != [] && IsDigit(token[0])
    ensures Parts(token).0 != [] && Parts(token).0[0] == token[0]
  {
  }

  lemma PartsHoldTheToken(token: string, rupees: string, fraction: string)
    requires Parts(token) == (rupees, fraction)
    ensures (forall i :: 0 <= i < |token| ==> IsDigit(token[i]) || IsSeparator(token[i]))
       <==> && (forall i :: 0 <= i < |rupees| ==> IsDigit(rupees[i]) || IsSeparator(rupees[i]))
            && (forall i :: 0 <= i < |fraction| ==> IsDigit(fraction[i]) || IsSeparator(fraction[i]))
  {
    var last := LastSeparator(token);
    if rupees != token {
      assert token == rupees + [token[last]] + fraction;
    }
  }

  /** Brackets and signs alone are no amount. */
  lemma {:induction false} MarksReadAsNothing(token: string)
    requires AllMarks(token)
    ensures ToPaise(token) == None
  {
    LeadIsStripped(token, []);
    assert token + [] == token;
  }

  // Choosing the token of a text

  /**
   * A number found in a text: `alone` when it is the whole of it, `marked` when a currency marker
   * stands right before it.
   */
  datatype Token = Token(text: string, alone: bool, marked: bool)

  /** A bare integer inside prose is no amount. */
  predicate IsAmountShaped(token: Token) {
    (exists i :: 0 <= i < |token.text| && IsSeparator(token.text[i])) || token.alone || token.marked
  }

  /** The rightmost token that looks like an amount and reads as one. */
  function ParseTokens(tokens: seq<Token>): Option<int> {
    if tokens == [] then None
    else
      var last := tokens[|tokens| - 1];
      if IsAmountShaped(last) && ToPaise(last.text).Some? then ToPaise(last.text)
      else ParseTokens(tokens[..|tokens| - 1])
  }

  /** A bill line that ends in a printed amount reads as that amount, whatever stands before it. */
  lemma PrintedAmountAtTheEndIsRead(before: seq<Token>, amount: nat, groups: seq<string>, flips: set<nat>,
                                    alone: bool, marked: bool)
    requires IsGrouping(groups, Digits(amount / 100))
    ensures ParseTokens(before + [Token(Damaged(Print(groups, amount % 100), flips), alone, marked)])
            == Some(amount)
  {
    var printed := Print(groups, amount % 100);
    var token := Token(Damaged(printed, flips), alone, marked);
    DamagedPrintReadsBack(amount, groups, flips);
    assert IsSeparator(token.text[|Join(groups)|]);
    assert (before + [token])[|before|] == token;
  }

  /** A bare integer counts only when it stands alone or has a currency marker before it. */
  lemma BareIntegersAreSkipped(before: seq<Token>, digits: string, alone: bool, marked: bool)
    requires digits != [] && AllDigits(digits)
    ensures ParseTokens(before + [Token(digits, alone, marked)])
         == if alone || marked then Some(100 * NumberOf(digits)) else ParseTokens(before)
  {
    var token := Token(digits, alone, marked);
    UngroupedReads(digits, {});
    assert Damaged(digits, {}) == digits;
    assert (before + [token])[..|before|] == before && (before + [token])[|before|] == token;
  }

  /** What does not read as an amount is passed over. */
  lemma UnreadableTokensAreSkipped(before: seq<Token>, token: Token)
    requires ToPaise(token.text) == None
    ensures ParseTokens(before + [token]) == ParseTokens(before)
  {
    assert (before + [token])[..|before|] == before && (before + [token])[|before|] == token;
  }

  // The plain form used in keys

  function Size(amount: int): nat {
    if amount < 0 then -amount else amount
  }

  function WithSign(negative: bool, s: string): string {
    if negative then ['-'] + s else s
  }

  function Plain(amount: int): string {
    WithSign(amount < 0, PlainNatural(Size(amount)))
  }

  function PlainNatural(amount: nat): string {
    Digits(amount / 100) + ['.'] + TwoDigits(amount % 100)
  }

  lemma PlainNaturalReads(amount: nat)
    ensures ToPaise(PlainNatural(amount)) == Some(amount)
  {
    var digits := Digits(amount / 100);
    assert [digits][..0] == [];
    assert Flatten([digits]) == digits;
    assert Damaged(PlainNatural(amount), {}) == PlainNatural(amount);
    DamagedPrintReadsBack(amount, [digits], {});
  }

  lemma PlainNaturalIsInjective(a: nat, b: nat)
    requires PlainNatural(a) == PlainNatural(b)
    ensures a == b
  {
    PlainNaturalReads(a);
    PlainNaturalReads(b);
  }

  lemma PlainStartsWithADigit(amount: nat)
    ensures PlainNatural(amount) != [] && IsDigit(PlainNatural(amount)[0])
  {
    assert PlainNatural(amount)[0] == Digits(amount / 100)[0];
  }

  lemma SignShows(s: string, t: string, minus: bool, minus': bool)
    requires s != [] && t != [] && IsDigit(s[0]) && IsDigit(t[0])
    requires WithSign(minus, s) == WithSign(minus', t)
    ensures minus == minus' && s == t
  {
    assert WithSign(minus, s)[0] == '-' <==> minus;
    assert WithSign(minus', t)[0] == '-' <==> minus';
    if minus {
      assert s == WithSign(minus, s)[1..] && t == WithSign(minus', t)[1..];
    }
  }

  /** Two amounts print alike only when they are the same amount. */
  lemma PlainIsInjective(a: int, b: int)
    requires Plain(a) == Plain(b)
    ensures a == b
  {
    PlainStartsWithADigit(Size(a));
    PlainStartsWithADigit(Size(b));
    SignShows(PlainNatural(Size(a)), PlainNatural(Size(b)), a < 0, b < 0);
    PlainNaturalIsInjective(Size(a), Size(b));
  }
}
