/** formatted-inputs.ts on strings: the normal forms the sanitizers reach. */
module FormattedInputs {
  import opened Strings

  /** replace(/\D/g, ''). */
  function Digits(s: string): (d: string)
    ensures AllDigits(d)
  {
    if s == [] then [] else if IsDigit(s[0]) then [s[0]] + Digits(s[1..]) else Digits(s[1..])
  }

  /** replace(/[^\d-]/g, ''). */
  function DigitsAndHyphens(s: string): string {
    if s == [] then []
    else if IsDigit(s[0]) || s[0] == '-' then [s[0]] + DigitsAndHyphens(s[1..])
    else DigitsAndHyphens(s[1..])
  }

  function SanitizePhone(value: string): string {
    var digits := Digits(value);
    if |digits| == 11 && digits[0] == '1' then digits[1..] else digits
  }

  function SanitizeEIN(value: string): string {
    var digits := Digits(value);
    if |digits| == 9 then digits[..2] + "-" + digits[2..] else value
  }

  function SanitizeZipCode(value: string): string {
    var cleaned := DigitsAndHyphens(value);
    var digits := Digits(cleaned);
    if |digits| == 9 then digits[..5] + "-" + digits[5..] else cleaned
  }

  predicate EndsWith(s: string, suffix: string) {
    |suffix| <= |s| && s[|s| - |suffix|..] == suffix
  }

  /** /^\d{4}-\d{2}-\d{2}$/ */
  predicate IsDateOnly(s: string) {
    && |s| == 10 && s[4] == '-' && s[7] == '-'
    && forall i | 0 <= i < 10 && i != 4 && i != 7 :: IsDigit(s[i])
  }

  function SanitizeDate(value: string): string {
    if 'T' in value then
      if !EndsWith(value, "Z") && '+' !in value then value + ".000Z" else value
    else if IsDateOnly(value) then value + "T12:00:00.000Z"
    else value
  }

  function TrimmedItems(parts: seq<string>): seq<string> {
    if parts == [] then []
    else
      var item := Trim(parts[0]);
      (if item == "" then [] else [item]) + TrimmedItems(parts[1..])
  }

  /** ToArray on a string that is not empty. */
  function ToArray(value: string): seq<string> {
    TrimmedItems(Split(value, ','))
  }

  lemma {:induction false} DigitsAppend(a: string, b: string)
    ensures Digits(a + b) == Digits(a) + Digits(b)
  {
    if a == [] {
      assert a + b == b;
    } else {
      DigitsAppend(a[1..], b);
      assert (a + b)[1..] == a[1..] + b;
    }
  }

  lemma {:induction false} DigitsOfDigits(d: string)
    requires AllDigits(d)
    ensures Digits(d) == d
  {
    if d != [] {
      assert IsDigit(d[0]) && AllDigits(d[1..]);
      DigitsOfDigits(d[1..]);
    }
  }

  lemma HyphenIsDropped(b: string)
    ensures Digits("-" + b) == Digits(b)
  {
    var s := "-" + b;
    assert s[0] == '-' && s[1..] == b;
  }

  lemma DigitsHyphenated(a: string, b: string)
    requires AllDigits(a) && AllDigits(b)
    ensures Digits(a + "-" + b) == a + b
  {
    DigitsOfDigits(a);
    DigitsOfDigits(b);
    DigitsAroundHyphen(a, b);
  }

  lemma DigitsAroundHyphen(a: string, b: string)
    ensures Digits(a + "-" + b) == Digits(a) + Digits(b)
  {
    assert a + "-" + b == a + ("-" + b);
    HyphenIsDropped(b);
    DigitsAppend(a, "-" + b);
  }

  lemma {:induction false} CleanedKeepsDigits(s: string)
    ensures Digits(DigitsAndHyphens(s)) == Digits(s)
    ensures DigitsAndHyphens(DigitsAndHyphens(s)) == DigitsAndHyphens(s)
  {
    if s != [] {
      CleanedKeepsDigits(s[1..]);
      if IsDigit(s[0]) || s[0] == '-' {
        assert ([s[0]] + DigitsAndHyphens(s[1..]))[1..] == DigitsAndHyphens(s[1..]);
      }
    }
  }

  predicate IsDigitOrHyphen(c: char) {
    IsDigit(c) || c == '-'
  }

  lemma {:induction false} CleanedOfClean(s: string)
    requires forall i | 0 <= i < |s| :: IsDigitOrHyphen(s[i])
    ensures DigitsAndHyphens(s) == s
  {
    if s != [] {
      CleanedOfClean(s[1..]);
    }
  }

  lemma SanitizersAreIdempotent(value: string)
    ensures SanitizePhone(SanitizePhone(value)) == SanitizePhone(value)
    ensures SanitizeEIN(SanitizeEIN(value)) == SanitizeEIN(value)
    ensures SanitizeZipCode(SanitizeZipCode(value)) == SanitizeZipCode(value)
    ensures SanitizeDate(SanitizeDate(value)) == SanitizeDate(value)
  {
    DigitsOfDigits(SanitizePhone(value));
    FormattingKeepsDigits(value);
    CleanedKeepsDigits(value);
    CleanedOfClean(SanitizeZipCode(value)) by {
      ZipIsClean(value);
    }
    SanitizeDateTwice(value);
  }

  lemma {:induction false} CleanedIsClean(s: string)
    ensures forall i | 0 <= i < |DigitsAndHyphens(s)| :: IsDigitOrHyphen(DigitsAndHyphens(s)[i])
  {
    if s != [] {
      CleanedIsClean(s[1..]);
    }
  }

  lemma ZipIsClean(value: string)
    ensures forall i | 0 <= i < |SanitizeZipCode(value)| :: IsDigitOrHyphen(SanitizeZipCode(value)[i])
  {
    CleanedIsClean(value);
  }

  lemma SanitizeDateTwice(value: string)
    ensures SanitizeDate(SanitizeDate(value)) == SanitizeDate(value)
  {
    var once := SanitizeDate(value);
    if once != value {
      var suffix := if 'T' in value then ".000Z" else "T12:00:00.000Z";
      assert once == value + suffix;
      if 'T' in value {
        assert 'T' in once;
      } else {
        assert once[|value|] == 'T';
      }
      assert once[|once| - 1..] == "Z";
    }
  }

  /** Hyphens are all the EIN and ZIP formats add, and all the ZIP format or an EIN of nine digits drops
      is what is no digit. */
  lemma FormattingKeepsDigits(value: string)
    ensures Digits(SanitizeEIN(value)) == Digits(value)
    ensures Digits(SanitizeZipCode(value)) == Digits(value)
  {
    var digits := Digits(value);
    CleanedKeepsDigits(value);
    if |digits| == 9 {
      DigitsHyphenated(digits[..2], digits[2..]);
      DigitsHyphenated(digits[..5], digits[5..]);
    }
  }

  /** Nine digits, however punctuated, give an EIN of the form 12-3456789 and a ZIP code of the form
      12345-6789; a phone number is digits only, ten if there were eleven that begin with 1. */
  lemma NineDigitsGetTheirHyphen(value: string)
    ensures |Digits(value)| == 9 ==>
      && |SanitizeEIN(value)| == 10 && SanitizeEIN(value)[2] == '-' && AllDigits(SanitizeEIN(value)[..2])
      && |SanitizeZipCode(value)| == 10 && SanitizeZipCode(value)[5] == '-' && AllDigits(SanitizeZipCode(value)[..5])
    ensures |Digits(value)| != 9 ==> SanitizeEIN(value) == value
    ensures AllDigits(SanitizePhone(value))
    ensures SanitizePhone(value) == (if |Digits(value)| == 11 && "1" <= Digits(value) then Digits(value)[1..]
                                     else Digits(value))
  {
    CleanedKeepsDigits(value);
  }

  /** A plain date becomes noon of that day in UTC, a time without a zone is taken as UTC, and everything
      else stays. */
  lemma DatesAreCompleted(value: string)
    ensures IsDateOnly(value) ==> SanitizeDate(value) == value + "T12:00:00.000Z"
    ensures 'T' in value && '+' !in value && value[|value| - 1] != 'Z' ==> SanitizeDate(value) == value + ".000Z"
    ensures 'T' in value && ('+' in value || value[|value| - 1] == 'Z') ==> SanitizeDate(value) == value
    ensures 'T' !in value && !IsDateOnly(value) ==> SanitizeDate(value) == value
  {
    if 'T' in value {
      assert value[|value| - 1..] == [value[|value| - 1]];
    }
  }

  lemma PlainDatesAre(year: string, month: string, day: string)
    requires AllDigits(year) && AllDigits(month) && AllDigits(day) && |year| == 4 && |month| == |day| == 2
    ensures SanitizeDate(year + "-" + month + "-" + day) == year + "-" + month + "-" + day + "T12:00:00.000Z"
  {
    var value := year + "-" + month + "-" + day;
    assert value[4] == '-' && value[7] == '-';
    assert forall i | 0 <= i < 4 :: value[i] == year[i];
    assert value[5] == month[0] && value[6] == month[1] && value[8] == day[0] && value[9] == day[1];
    DatesAreCompleted(value);
  }

  /** Ten digits give the same phone number with or without a country code of 1, however punctuated. */
  lemma {:induction false} CountryCodeIsStripped(prefix: string, value: string)
    requires |Digits(value)| == 10 && Digits(prefix) == "1"
    ensures SanitizePhone(prefix + value) == SanitizePhone(value) == Digits(value)
  {
    DigitsAppend(prefix, value);
  }

  /** An item the list can carry: trimmed, without commas, and not empty. */
  predicate IsItem(s: string) {
    ',' !in s && s != "" && !IsSpace(s[0]) && !IsSpace(s[|s| - 1])
  }

  lemma {:induction false} TrimEndResult(s: string)
    ensures TrimEnd(s) <= s && (TrimEnd(s) != "" ==> !IsSpace(TrimEnd(s)[|TrimEnd(s)| - 1]))
  {
    if s != [] && IsSpace(s[|s| - 1]) {
      TrimEndResult(s[..|s| - 1]);
    }
  }

  lemma {:induction false} TrimStartResult(s: string)
    ensures |TrimStart(s)| <= |s| && TrimStart(s) == s[|s| - |TrimStart(s)|..]
    ensures TrimStart(s) != "" ==> !IsSpace(TrimStart(s)[0])
  {
    if s != [] && IsSpace(s[0]) {
      TrimStartResult(s[1..]);
    }
  }

  lemma TrimGivesItems(s: string)
    requires ',' !in s && Trim(s) != ""
    ensures IsItem(Trim(s))
  {
    TrimStartResult(s);
    TrimEndResult(TrimStart(s));
  }

  lemma {:induction false} TrimmedItemsAre(parts: seq<string>)
    requires forall i | 0 <= i < |parts| :: ',' !in parts[i]
    ensures forall i | 0 <= i < |TrimmedItems(parts)| :: IsItem(TrimmedItems(parts)[i])
  {
    if parts != [] {
      TrimmedItemsAre(parts[1..]);
      if Trim(parts[0]) != "" {
        TrimGivesItems(parts[0]);
      }
    }
  }

  lemma {:induction false} ItemsAreKept(parts: seq<string>)
    requires forall i | 0 <= i < |parts| :: IsItem(parts[i])
    ensures TrimmedItems(parts) == parts
  {
    if parts != [] {
      ItemsAreKept(parts[1..]);
      assert Trim(parts[0]) == parts[0];
    }
  }

  /** A list survives being joined with commas exactly when each of its elements is such an item. */
  lemma {:induction false} ToArrayRestoresExactlyWhen(items: seq<string>)
    requires items != []
    ensures ToArray(Join(items, ',')) == items <==> forall i | 0 <= i < |items| :: IsItem(items[i])
  {
    TrimmedItemsAre(Split(Join(items, ','), ','));
    if forall i | 0 <= i < |items| :: IsItem(items[i]) {
      SplitJoin(items, ',');
      ItemsAreKept(items);
    }
  }
}
