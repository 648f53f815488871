/** The pure display helpers of frontend/utils.js: the status badge class, the initials of a
    name, the email shape test and the peso amount format. */
module FrontendUtils {
  import opened Common
  import opened Text

  // ---------------------------------------------------------------- getStatusClass

  /** The status names that have a badge class. */
  predicate KnownStatus(s: string)
  {
    s == "active" || s == "inactive" || s == "paid" || s == "partial" || s == "unpaid"
  }

  /** `getStatusClass`: a missing or empty status is "" before lowercasing. */
  function GetStatusClass(status: Option<string>): (r: string)
    ensures status.Some? && KnownStatus(Lower(status.value)) ==> r == "status-" + Lower(status.value)
    ensures status.None? || !KnownStatus(Lower(status.value)) ==> r == ""
  {
    var s := if status.Some? then Lower(status.value) else "";
    if s == "active" then "status-active"
    else if s == "inactive" then "status-inactive"
    else if s == "paid" then "status-paid"
    else if s == "partial" then "status-partial"
    else if s == "unpaid" then "status-unpaid"
    else ""
  }

  /** The class does not depend on letter case: "PAID", "Paid" and "paid" share one badge. */
  lemma GetStatusClassIgnoresCase(s: string)
    ensures GetStatusClass(Some(Lower(s))) == GetStatusClass(Some(s))
  {
    LowerIdempotent(s);
  }

  // ---------------------------------------------------------------- getInitials

  /** `getInitials`: the first character of each non-empty name, in order. */
  function GetInitials(firstName: string, lastName: string): (r: string)
    ensures |r| == (if firstName != "" then 1 else 0) + (if lastName != "" then 1 else 0)
    ensures firstName != "" ==> r[0] == firstName[0]
    ensures lastName != "" ==> r[|r| - 1] == lastName[0]
  {
    (if firstName != "" then firstName[..1] else "") + (if lastName != "" then lastName[..1] else "")
  }

  lemma GetInitialsAtMostTwo(firstName: string, lastName: string)
    ensures |GetInitials(firstName, lastName)| <= 2
    ensures GetInitials(firstName, lastName) == "" <==> firstName == "" && lastName == ""
  {
  }

  // ---------------------------------------------------------------- isValidEmail

  /** A character of the class `[^\s@]`. */
  predicate Plain(c: char) { !IsWhiteSpace(c) && c != '@' }

  predicate AllPlain(s: string) { forall k :: 0 <= k < |s| ==> Plain(s[k]) }

  /** The language of `^[^\s@]+@[^\s@]+\.[^\s@]+$`: three non-empty plain runs with "@"
      between the first two and "." between the last two. */
  predicate MatchesEmailPattern(s: string)
  {
    exists i, j :: 0 < i && i + 1 < j && j + 1 < |s| && s[i] == '@' && s[j] == '.'
                   && AllPlain(s[..i]) && AllPlain(s[i + 1..j]) && AllPlain(s[j + 1..])
  }

  /** The position of the first "@", or the length when there is none. */
  function AtPosition(s: string): (r: nat)
    ensures r <= |s| && (r < |s| ==> s[r] == '@')
    ensures forall k :: 0 <= k < r ==> s[k] != '@'
  {
    if s == [] || s[0] == '@' then 0 else 1 + AtPosition(s[1..])
  }

  /** A "." strictly inside the string. */
  predicate HasInnerDot(s: string)
  {
    exists j :: 0 < j < |s| - 1 && s[j] == '.'
  }

  /** `isValidEmail`, read off the string: one "@" after a non-empty local part, no white space
      anywhere, and a "." with something on both sides in what follows the "@". */
  function IsValidEmail(email: string): bool
  {
    var i := AtPosition(email);
    0 < i < |email| && AllPlain(email[..i]) && AllPlain(email[i + 1..]) && HasInnerDot(email[i + 1..])
  }

  lemma PlainJoin(x: string, c: char, z: string)
    requires AllPlain(x) && Plain(c) && AllPlain(z)
    ensures AllPlain(x + [c] + z)
  {
  }

  /** An "@" with none before it is the one `AtPosition` finds. */
  lemma FirstAt(s: string, i: nat)
    requires i < |s| && s[i] == '@' && AllPlain(s[..i])
    ensures AtPosition(s) == i
  {
    assert forall k :: 0 <= k < i ==> s[k] == s[..i][k];
  }

  lemma IsValidEmailIsPattern(email: string)
    requires IsValidEmail(email)
    ensures MatchesEmailPattern(email)
  {
    var i := AtPosition(email);
    var rest := email[i + 1..];
    var j :| 0 < j < |rest| - 1 && rest[j] == '.';
    assert email[i + 1..i + 1 + j] == rest[..j];
    assert email[i + 1 + j + 1..] == rest[j + 1..];
    assert email[i + 1 + j] == '.';
  }

  lemma PatternIsValidEmail(email: string)
    requires MatchesEmailPattern(email)
    ensures IsValidEmail(email)
  {
    var i, j :| 0 < i && i + 1 < j && j + 1 < |email| && email[i] == '@' && email[j] == '.'
                && AllPlain(email[..i]) && AllPlain(email[i + 1..j]) && AllPlain(email[j + 1..]);
    PatternAt(email, i, j);
  }

  lemma PatternAt(email: string, i: nat, j: nat)
    requires 0 < i && i + 1 < j && j + 1 < |email| && email[i] == '@' && email[j] == '.'
    requires AllPlain(email[..i]) && AllPlain(email[i + 1..j]) && AllPlain(email[j + 1..])
    ensures IsValidEmail(email)
  {
    assert email == email[..i] + "@" + email[i + 1..j] + "." + email[j + 1..];
    IsValidEmailOfParts(email[..i], email[i + 1..j], email[j + 1..]);
  }

  /** The test accepts exactly the strings the regular expression matches. */
  lemma IsValidEmailMatchesPattern(email: string)
    ensures IsValidEmail(email) <==> MatchesEmailPattern(email)
  {
    if IsValidEmail(email) {
      IsValidEmailIsPattern(email);
    }
    if MatchesEmailPattern(email) {
      PatternIsValidEmail(email);
    }
  }

  /** Any local part, domain and top-level part free of white space and "@" make an address
      that passes. */
  lemma IsValidEmailOfParts(local: string, domain: string, top: string)
    requires local != [] && domain != [] && top != []
    requires AllPlain(local) && AllPlain(domain) && AllPlain(top)
    ensures IsValidEmail(local + "@" + domain + "." + top)
  {
    var e := local + "@" + domain + "." + top;
    var rest := domain + "." + top;
    assert e[..|local|] == local && e[|local|] == '@';
    FirstAt(e, |local|);
    assert e[|local| + 1..] == rest;
    PlainJoin(domain, '.', top);
    assert rest[|domain|] == '.';
  }

  /** An address without a dot after the "@" fails. */
  lemma IsValidEmailNeedsDot()
    ensures !IsValidEmail("ana@school")
  {
    var e := "ana@school";
    assert e[..3] == "ana" && e[4..] == "school";
    FirstAt(e, 3);
  }

  // ---------------------------------------------------------------- formatCurrency

  /** The currency sign and the space before the amount. */
  const Peso := "\U{20B1} "

  /** The `replace(/\B(?=(\d{3})+(?!\d))/g, ",")` of the integer digits: a comma before every
      group of three digits counted from the right, never in front. */
  function Group(d: string): (r: string)
    ensures |r| >= |d|
    decreases |d|
  {
    if |d| <= 3 then d else Group(d[..|d| - 3]) + "," + d[|d| - 3..]
  }

  /** A well-grouped numeral: one to three leading digits, then groups of a comma and three digits. */
  predicate Grouped(s: string)
    decreases |s|
  {
    if |s| <= 3 then 1 <= |s| && AllDigits(s)
    else s[|s| - 4] == ',' && AllDigits(s[|s| - 3..]) && Grouped(s[..|s| - 4])
  }

  /** The string with its commas dropped. */
  function RemoveCommas(s: string): (r: string)
  {
    if s == [] then [] else RemoveCommas(s[..|s| - 1]) + (if s[|s| - 1] == ',' then [] else [s[|s| - 1]])
  }

  lemma {:induction false} RemoveCommasConcat(a: string, b: string)
    ensures RemoveCommas(a + b) == RemoveCommas(a) + RemoveCommas(b)
    decreases |b|
  {
    if b != [] {
      assert (a + b)[..|a + b| - 1] == a + b[..|b| - 1];
      RemoveCommasConcat(a, b[..|b| - 1]);
    } else {
      assert a + b == a;
    }
  }

  lemma {:induction false} RemoveCommasOfDigits(d: string)
    requires AllDigits(d)
    ensures RemoveCommas(d) == d
    decreases |d|
  {
    if d != [] {
      RemoveCommasOfDigits(d[..|d| - 1]);
      assert d[..|d| - 1] + [d[|d| - 1]] == d;
    }
  }

  /** One comma and a group of three digits appended. */
  lemma GroupStep(x: string, t: string)
    requires |t| == 3 && AllDigits(t)
    ensures RemoveCommas(x + "," + t) == RemoveCommas(x) + t
    ensures Grouped(x + "," + t) <==> Grouped(x)
  {
    var g := x + "," + t;
    RemoveCommasConcat(x + ",", t);
    RemoveCommasConcat(x, ",");
    RemoveCommasOfDigits(t);
    assert RemoveCommas(",") == [];
    assert g[..|g| - 4] == x && g[|g| - 4] == ',' && g[|g| - 3..] == t;
  }

  /** Grouping inserts commas and nothing else, and groups by threes. */
  lemma {:induction false} GroupFacts(d: string)
    requires 1 <= |d| && AllDigits(d)
    ensures RemoveCommas(Group(d)) == d
    ensures Grouped(Group(d))
    decreases |d|
  {
    if |d| > 3 {
      var p, t := d[..|d| - 3], d[|d| - 3..];
      GroupFacts(p);
      GroupStep(Group(p), t);
      assert p + t == d;
    } else {
      RemoveCommasOfDigits(d);
    }
  }

  /** `formatCurrency` over an amount in centavos; `None` is what `parseFloat(amount) || 0`
      turns into 0 (no number, or not a number). */
  function FormatCurrency(amount: Option<nat>): (r: string)
    ensures |r| >= 6 && r[..2] == Peso && r[|r| - 3] == '.'
  {
    var n := if amount.Some? then amount.value else 0;
    Pad2Value(n % 100);
    Peso + Group(NatToString(n / 100)) + "." + Pad2(n % 100)
  }

  /** The integer part and the decimals of the formatted text, as the page shows them. */
  function IntegerPart(r: string): string
    requires |r| >= 5
  {
    r[2..|r| - 3]
  }

  function Decimals(r: string): string
    requires |r| >= 5
  {
    r[|r| - 2..]
  }

  lemma SplitFormatted(g: string, c: string)
    requires |c| == 2
    ensures IntegerPart(Peso + g + "." + c) == g && Decimals(Peso + g + "." + c) == c
  {
    var r := Peso + g + "." + c;
    assert r[2..|r| - 3] == g;
    assert r[|r| - 2..] == c;
  }

  /** The formatted amount reads back as the amount: a well-grouped integer part which, without
      its commas, is the whole pesos, and two decimals that are the centavos. */
  lemma FormatCurrencyRoundTrip(n: nat)
    ensures var r := FormatCurrency(Some(n));
            && Grouped(IntegerPart(r)) && AllDigits(RemoveCommas(IntegerPart(r))) && AllDigits(Decimals(r))
            && DigitsValue(RemoveCommas(IntegerPart(r))) * 100 + DigitsValue(Decimals(r)) == n
  {
    var d, c := NatToString(n / 100), Pad2(n % 100);
    var g := Group(d);
    assert FormatCurrency(Some(n)) == Peso + g + "." + c;
    Pad2Value(n % 100);
    SplitFormatted(g, c);
    GroupFacts(d);
    NatToStringRoundTrip(n / 100);
  }

  /** A missing or non-numeric amount shows as zero. */
  lemma FormatCurrencyOfNothing()
    ensures FormatCurrency(None) == FormatCurrency(Some(0)) == "\U{20B1} 0.00"
  {
    assert Pad2(0) == "00";
  }

  /** Four digits get one comma, after the first. */
  lemma GroupFourDigits(d: string)
    requires |d| == 4
    ensures Group(d) == [d[0]] + "," + d[1..]
  {
    assert d[..1] == [d[0]];
  }

  /** The whole pesos of 1234.56. */
  lemma PesosExample()
    ensures NatToString(123456 / 100) == "1234"
  {
    assert NatToString(1) == "1";
    assert NatToString(12) == "12";
    assert NatToString(123) == "123";
  }

  /** An example with one comma: 1234.56 pesos. */
  lemma FormatCurrencyExample()
    ensures FormatCurrency(Some(123456)) == "\U{20B1} 1,234.56"
  {
    var n := 123456;
    assert FormatCurrency(Some(n)) == Peso + Group(NatToString(n / 100)) + "." + Pad2(n % 100);
    PesosExample();
    GroupFourDigits("1234");
    assert Pad2(56) == "56";
  }
}
