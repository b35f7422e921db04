/** Small pure helpers of the portal: phone normalisation, integer
    parsing, id allocation, pagination, the date filter, the upload
    filter, the legacy-hash test and the PIN test. Characters are ASCII
    here: `str.isdigit` and `str.lower` are taken on the ASCII range. */
module Helpers {
  import opened JsonValues

  predicate IsDigit(c: char) {
    '0' <= c <= '9'
  }

  predicate AllDigits(s: string) {
    forall i :: 0 <= i < |s| ==> IsDigit(s[i])
  }

  // ---------------------------------------------------------------- phones

  /** `"".join(ch for ch in s if ch.isdigit())`. */
  function Digits(s: string): (r: string)
    ensures AllDigits(r) && |r| <= |s|
    ensures |s| == 1 ==> r == if IsDigit(s[0]) then s else []
  {
    if s == [] then []
    else if IsDigit(s[0]) then [s[0]] + Digits(s[1..])
    else Digits(s[1..])
  }

  /** The digits of two strings put together are the digits of the first
      followed by the digits of the second; with the one-character case
      above, every digit of a string is kept, in order, and nothing else. */
  lemma {:induction false} DigitsAppend(a: string, b: string)
    ensures Digits(a + b) == Digits(a) + Digits(b)
  {
    if a == [] {
      assert a + b == b;
    } else {
      assert (a + b)[0] == a[0] && (a + b)[1..] == a[1..] + b;
      DigitsAppend(a[1..], b);
    }
  }

  /** A string of digits only is kept as it is. */
  lemma {:induction false} DigitsOfDigits(s: string)
    requires AllDigits(s)
    ensures Digits(s) == s
  {
    if s != [] {
      DigitsOfDigits(s[1..]);
      assert s == [s[0]] + s[1..];
    }
  }

  /** A 10- or 11-digit number whose 11-digit form starts with 8. */
  predicate IsRussianNumber(d: string) {
    |d| == 10 || (|d| == 11 && d[0] == '8')
  }

  /** `normalize_phone(raw)` on `str(raw or "")`: keep the digits; a
      domestic number (ten digits, or eleven starting with 8) gets the
      country code 7 in front of its last ten digits; anything else is
      the digits as they are. */
  function NormalizePhone(raw: string): (r: string)
    ensures AllDigits(r)
    ensures IsRussianNumber(Digits(raw)) ==>
      |r| == 11 && r[0] == '7' && r[1..] == Digits(raw)[|Digits(raw)| - 10..]
    ensures !IsRussianNumber(Digits(raw)) ==> r == Digits(raw)
  {
    var s := Digits(raw);
    var s' := if |s| == 11 && s[0] == '8' then "7" + s[1..] else s;
    if |s'| == 10 then "7" + s' else s'
  }

  /** Normalising a normalised phone changes nothing. */
  lemma NormalizePhoneIdempotent(raw: string)
    ensures NormalizePhone(NormalizePhone(raw)) == NormalizePhone(raw)
  {
    DigitsOfDigits(NormalizePhone(raw));
  }

  /** Two spellings of the same domestic number normalise alike. */
  lemma SameNumberSamePhone(raw: string, raw': string)
    requires IsRussianNumber(Digits(raw)) && IsRussianNumber(Digits(raw'))
    requires Digits(raw)[|Digits(raw)| - 10..] == Digits(raw')[|Digits(raw')| - 10..]
    ensures NormalizePhone(raw) == NormalizePhone(raw')
  {
    var r, r' := NormalizePhone(raw), NormalizePhone(raw');
    assert r == [r[0]] + r[1..];
    assert r' == [r'[0]] + r'[1..];
  }

  /** `str(j or "")` as the phone fields are read. */
  function PhoneText(j: Json): string {
    if Truthy(j) then PyStr(j) else ""
  }

  // ---------------------------------------------------------------- integers

  /** The value of a non-empty string of decimal digits. */
  function DigitsValue(s: string): (n: nat)
    requires AllDigits(s)
  {
    if s == [] then 0 else DigitsValue(s[..|s| - 1]) * 10 + (s[|s| - 1] as int - '0' as int)
  }

  /** The text `int()` accepts once stripped: decimal digits, at least
      one, after an optional sign. */
  predicate IsIntText(t: string) {
    || (t != [] && AllDigits(t))
    || (|t| > 1 && (t[0] == '-' || t[0] == '+') && AllDigits(t[1..]))
  }

  /** `int(s)` on a string: surrounding whitespace, an optional sign and
      at least one digit; None where Python raises ValueError. */
  function ParseInt(s: string): (r: Option<int>)
    ensures r.Some? <==> IsIntText(Strip(s))
    ensures r.Some? && AllDigits(Strip(s)) ==> r.value == DigitsValue(Strip(s))
    ensures r.Some? && Strip(s)[0] == '-' ==> r.value == -(DigitsValue(Strip(s)[1..]) as int)
    ensures r.Some? && Strip(s)[0] == '+' ==> r.value == DigitsValue(Strip(s)[1..])
  {
    var t := Strip(s);
    if t != [] && AllDigits(t) then Some(DigitsValue(t))
    else if |t| > 1 && (t[0] == '-' || t[0] == '+') && AllDigits(t[1..]) then
      var v: int := DigitsValue(t[1..]);
      Some(if t[0] == '-' then -v else v)
    else None
  }

  /** The decimal text of a number has the number as its value. */
  lemma {:induction false} NatTextValue(n: nat)
    ensures NatText(n) != [] && AllDigits(NatText(n)) && DigitsValue(NatText(n)) == n
  {
    if n >= 10 {
      NatTextValue(n / 10);
      var t := NatText(n);
      assert t == NatText(n / 10) + [DigitChar(n % 10)];
      assert t[..|t| - 1] == NatText(n / 10);
    }
  }

  /** `int(str(n)) == n`: parsing the text `str()` gives an integer
      returns that integer. */
  lemma ParseIntOfText(n: int)
    ensures ParseInt(PyStr(JNum(n))) == Some(n)
  {
    var t := PyStr(JNum(n));
    if n >= 0 {
      NatTextValue(n);
      assert !IsSpace(t[0]) && !IsSpace(t[|t| - 1]);
    } else {
      NatTextValue(-n);
      assert t[1..] == NatText(-n);
      assert !IsSpace(t[|t| - 1]) by {
        assert t[|t| - 1] == t[1..][|t| - 2];
      }
    }
    StripStable(t);
  }

  /** `int(j)` on a JSON value: numbers as they are, booleans as 0/1,
      strings parsed; None where Python raises. */
  function IntOf(j: Json): Option<int> {
    match j
    case JNum(n) => Some(n)
    case JBool(b) => Some(if b then 1 else 0)
    case JStr(s) => ParseInt(s)
    case _ => None
  }

  /** `int(g.get("id", 0))`. */
  function IdOf(g: Json): Option<int>
    requires g.JObj?
  {
    if "id" in g.fields then IntOf(g.fields["id"]) else Some(0)
  }

  predicate AllDicts(items: seq<Json>) {
    forall i :: 0 <= i < |items| ==> items[i].JObj?
  }

  /** The largest id of a non-empty list; None when some id is not an
      integer (Python raises). */
  function MaxId(items: seq<Json>): (r: Option<int>)
    requires AllDicts(items) && items != []
    ensures r.Some? <==> forall i :: 0 <= i < |items| ==> IdOf(items[i]).Some?
    ensures r.Some? ==> forall i :: 0 <= i < |items| ==> IdOf(items[i]).value <= r.value
    ensures r.Some? ==> exists i :: 0 <= i < |items| && IdOf(items[i]).value == r.value
  {
    var id := IdOf(items[0]);
    if |items| == 1 then id
    else
      assert forall i :: 1 <= i < |items| ==> items[i] == items[1..][i - 1];
      var rest := MaxId(items[1..]);
      if id.None? || rest.None? then None
      else Some(if id.value > rest.value then id.value else rest.value)
  }

  /** `max((int(g.get("id", 0)) for g in items), default=0) + 1`: one more
      than the largest id (which may be zero or negative), or 1 for an
      empty list only; None when some id is not an integer (Python
      raises). */
  function NextId(items: seq<Json>): (r: Option<int>)
    requires AllDicts(items)
    ensures r.Some? <==> forall i :: 0 <= i < |items| ==> IdOf(items[i]).Some?
    ensures r.Some? ==> forall i :: 0 <= i < |items| ==> IdOf(items[i]).value < r.value
    ensures items == [] ==> r == Some(1)
    ensures items != [] && r.Some? ==> exists i :: 0 <= i < |items| && IdOf(items[i]).value == r.value - 1
  {
    if items == [] then Some(1)
    else
      match MaxId(items)
      case None => None
      case Some(m) => Some(m + 1)
  }

  /** The allocated id is not taken. */
  lemma NextIdFresh(items: seq<Json>, i: int)
    requires AllDicts(items) && NextId(items).Some? && 0 <= i < |items|
    ensures IdOf(items[i]) != Some(NextId(items).value)
  {
  }

  // ---------------------------------------------------------------- pagination

  datatype Page<T> = Page(items: seq<T>, page: int, pages: int, total: int)

  /** `paginate(items, page, per_page)`: the list is cut into pages of
      `per_page` items; the requested page number is clamped into range,
      and the empty list has a single empty page. */
  function Paginate<T>(items: seq<T>, page: int, perPage: int): (r: Page<T>)
    requires perPage > 0
    ensures r.total == |items|
    ensures items == [] ==> r == Page([], 1, 1, 0)
    ensures items != [] ==> (r.pages - 1) * perPage < |items| <= r.pages * perPage
    ensures items != [] ==> 1 <= r.page <= r.pages
    ensures items != [] && 1 <= page <= r.pages ==> r.page == page
    ensures items != [] && page < 1 ==> r.page == 1
    ensures items != [] && page > r.pages ==> r.page == r.pages
    ensures items != [] ==> (
      var start := (r.page - 1) * perPage;
      && 0 <= start < |items|
      && r.items == items[start .. if start + perPage < |items| then start + perPage else |items|])
    ensures 0 < |r.items| <= perPage || items == []
  {
    var total := |items|;
    if total == 0 then Page([], 1, 1, 0)
    else
      var pages := (total + perPage - 1) / perPage;
      CeilingDivision(total, perPage);
      var p := if page < pages then (if page > 1 then page else 1) else pages;
      var start := (p - 1) * perPage;
      PageStartInRange(total, perPage, pages, p);
      var end := start + perPage;
      Page(items[start .. if end < total then end else total], p, pages, total)
  }

  /** A page in range starts inside the list. */
  lemma PageStartInRange(total: nat, perPage: int, pages: int, p: int)
    requires perPage > 0 && 1 <= p <= pages && (pages - 1) * perPage < total
    ensures 0 <= (p - 1) * perPage < total
  {
    assert (pages - 1) * perPage - (p - 1) * perPage == (pages - p) * perPage;
  }

  /** `(total + per_page - 1) // per_page` is the number of pages needed. */
  lemma CeilingDivision(total: nat, perPage: int)
    requires total > 0 && perPage > 0
    ensures var pages := (total + perPage - 1) / perPage;
      pages >= 1 && (pages - 1) * perPage < total <= pages * perPage
  {
    var pages := (total + perPage - 1) / perPage;
    var rem := (total + perPage - 1) % perPage;
    assert total + perPage - 1 == pages * perPage + rem;
    assert (pages - 1) * perPage == pages * perPage - perPage;
  }

  /** Every item is on exactly the page its index says: item `i` is item
      `i % per_page` of page `i // per_page + 1`. */
  lemma {:induction false} ItemOnItsPage<T>(items: seq<T>, perPage: int, i: int)
    requires perPage > 0 && 0 <= i < |items|
    ensures var r := Paginate(items, i / perPage + 1, perPage);
      r.page == i / perPage + 1 && i % perPage < |r.items| && r.items[i % perPage] == items[i]
  {
    var r := Paginate(items, i / perPage + 1, perPage);
    QuotientBelow(i, perPage, r.pages);
    assert r.page == i / perPage + 1;
    var start := (r.page - 1) * perPage;
    assert start == i / perPage * perPage;
    assert start + i % perPage == i;
  }

  lemma QuotientBelow(i: nat, perPage: int, pages: int)
    requires perPage > 0 && i < pages * perPage
    ensures i / perPage < pages
  {
    var q := i / perPage;
    assert q * perPage <= i;
    assert (pages - q) * perPage == pages * perPage - q * perPage;
    assert (pages - q) * perPage > 0;
  }

  // ---------------------------------------------------------------- dates

  /** `s.split(sep)`. */
  function Split(s: string, sep: char): (r: seq<string>)
    ensures |r| >= 1
    ensures forall i :: 0 <= i < |r| ==> sep !in r[i]
  {
    if s == [] then [""]
    else
      var rest := Split(s[1..], sep);
      if s[0] == sep then [""] + rest
      else [[s[0]] + rest[0]] + rest[1..]
  }

  /** A piece without the separator, the separator, and the rest split
      into the first piece and the rest's pieces. */
  lemma {:induction false} SplitJoin(a: string, sep: char, b: string)
    requires sep !in a
    ensures Split(a + [sep] + b, sep) == [a] + Split(b, sep)
  {
    if a == [] {
      assert a + [sep] + b == [sep] + b;
    } else {
      assert (a + [sep] + b)[1..] == a[1..] + [sep] + b;
      SplitJoin(a[1..], sep, b);
      assert a == [a[0]] + a[1..];
    }
  }

  lemma {:induction false} SplitNone(a: string, sep: char)
    requires sep !in a
    ensures Split(a, sep) == [a]
  {
    if a != [] {
      SplitNone(a[1..], sep);
      assert a == [a[0]] + a[1..];
    }
  }

  predicate IsSign(c: char) {
    c == '+' || c == '-'
  }

  /** `s.zfill(2)`: pad with zeros to two characters, after a sign. */
  function ZFill2(s: string): (r: string)
    ensures |s| >= 2 ==> r == s
    ensures |s| < 2 && (s == [] || !IsSign(s[0])) ==>
      |r| == 2 && r[2 - |s|..] == s && forall i :: 0 <= i < 2 - |s| ==> r[i] == '0'
    ensures |s| == 1 && IsSign(s[0]) ==> r == [s[0], '0']
  {
    if |s| >= 2 then s
    else if s != [] && IsSign(s[0]) then [s[0]] + "0" + s[1..]
    else (if |s| == 0 then "00" else "0") + s
  }

  /** Padding a number keeps its value. */
  lemma ZFill2Value(s: string)
    requires s != [] && AllDigits(s)
    ensures AllDigits(ZFill2(s)) && DigitsValue(ZFill2(s)) == DigitsValue(s)
  {
    if |s| == 1 {
      var r := ZFill2(s);
      assert r[..1] == "0";
    }
  }

  /** Padding adds no dash to a text that has none. */
  lemma ZFill2NoDash(s: string)
    requires '-' !in s
    ensures '-' !in ZFill2(s)
  {
    var r := ZFill2(s);
    if |s| < 2 {
      if s != [] && IsSign(s[0]) {
        assert s[0] == '+';
      } else {
        assert forall i :: 0 <= i < |r| ==> r[i] == '0' || r[i] == s[i - (2 - |s|)];
      }
    }
  }

  /** The `ru_date` filter: "YYYY-MM-DD" becomes "DD-MM-YYYY" with day and
      month padded to two digits; an empty value gives "", and a value
      that does not split into exactly three parts is returned as it is.
      The result of a three-part value splits again into three parts:
      the padded day, the padded month and the year. */
  function RuDate(value: string): (r: string)
    ensures value == "" ==> r == ""
    ensures value != "" && |Split(value, '-')| != 3 ==> r == value
    ensures value != "" && |Split(value, '-')| == 3 ==>
      var parts := Split(value, '-');
      Split(r, '-') == [ZFill2(parts[2]), ZFill2(parts[1]), parts[0]]
  {
    if value == "" then ""
    else
      var parts := Split(value, '-');
      if |parts| != 3 then value
      else
        ZFill2NoDash(parts[2]);
        ZFill2NoDash(parts[1]);
        DateSplit(ZFill2(parts[2]), ZFill2(parts[1]), parts[0]);
        ZFill2(parts[2]) + "-" + ZFill2(parts[1]) + "-" + parts[0]
  }

  lemma DateSplit(y: string, m: string, d: string)
    requires '-' !in y && '-' !in m && '-' !in d
    ensures Split(y + "-" + m + "-" + d, '-') == [y, m, d]
  {
    assert y + "-" + m + "-" + d == y + ['-'] + (m + ['-'] + d);
    SplitJoin(y, '-', m + ['-'] + d);
    SplitJoin(m, '-', d);
    SplitNone(d, '-');
  }

  /** A well-formed date is turned around, with day and month padded. */
  lemma RuDateOfDate(y: string, m: string, d: string)
    requires '-' !in y && '-' !in m && '-' !in d
    ensures RuDate(y + "-" + m + "-" + d) == ZFill2(d) + "-" + ZFill2(m) + "-" + y
  {
    DateSplit(y, m, d);
  }

  /** Applied twice to a date whose parts already have two or more
      characters, the filter gives the date back. */
  lemma RuDateTwice(y: string, m: string, d: string)
    requires '-' !in y && '-' !in m && '-' !in d
    requires |y| >= 2 && |m| >= 2 && |d| >= 2
    ensures RuDate(RuDate(y + "-" + m + "-" + d)) == y + "-" + m + "-" + d
  {
    RuDateOfDate(y, m, d);
    RuDateOfDate(d, m, y);
  }

  // ---------------------------------------------------------------- uploads

  /** `name.rsplit(".", 1)[1]`: what follows the last dot. */
  function Extension(name: string): (r: string)
    requires '.' in name
    ensures |r| < |name| && r == name[|name| - |r|..] && name[|name| - |r| - 1] == '.'
    ensures '.' !in r
  {
    if name[|name| - 1] == '.' then ""
    else
      assert '.' in name[..|name| - 1] by {
        var k :| 0 <= k < |name| && name[k] == '.';
        assert name[..|name| - 1][k] == '.';
      }
      Extension(name[..|name| - 1]) + [name[|name| - 1]]
  }

  lemma {:induction false} ExtensionOf(base: string, ext: string)
    requires '.' !in ext
    ensures Extension(base + "." + ext) == ext
  {
    var name := base + "." + ext;
    if ext != [] {
      assert name[..|name| - 1] == base + "." + ext[..|ext| - 1];
      ExtensionOf(base, ext[..|ext| - 1]);
    }
  }

  const AllowedExtensions: set<string> := {"jpg", "jpeg", "png", "gif", "webp"}

  /** Whatever follows a dot that has no dot after it is the extension. */
  lemma LastDotUnique(name: string)
    requires '.' in name
    ensures forall i :: 0 <= i < |name| && name[i] == '.' && '.' !in name[i + 1..] ==> name[i + 1..] == Extension(name)
  {
    var r := Extension(name);
    var j := |name| - |r| - 1;
    forall i | 0 <= i < |name| && name[i] == '.' && '.' !in name[i + 1..]
      ensures name[i + 1..] == r
    {
      forall k | i < k < |name| ensures name[k] != '.' {
        assert name[k] == name[i + 1..][k - i - 1];
      }
      forall k | j < k < |name| ensures name[k] != '.' {
        assert name[k] == r[k - j - 1];
      }
    }
  }

  /** `allowed_file(name)`: the name has a dot, and what follows its last
      dot, in any letter case, is an image type the portal accepts. */
  function AllowedFile(name: string): (r: bool)
    ensures r <==> exists i :: 0 <= i < |name| && name[i] == '.' && '.' !in name[i + 1..]
                              && Lower(name[i + 1..]) in AllowedExtensions
  {
    if '.' !in name then false
    else
      LastDotUnique(name);
      var ext := Extension(name);
      assert name[|name| - |ext| - 1 + 1..] == ext;
      Lower(ext) in AllowedExtensions
  }

  /** Only the last extension decides. */
  lemma AllowedFileByLastExtension(base: string, ext: string)
    requires '.' !in ext
    ensures AllowedFile(base + "." + ext) <==> Lower(ext) in AllowedExtensions
  {
    ExtensionOf(base, ext);
  }

  // ---------------------------------------------------------------- credentials

  predicate IsHexChar(c: char) {
    ('0' <= c <= '9') || ('a' <= c <= 'f') || ('A' <= c <= 'F')
  }

  /** `_is_legacy_sha256_hash(s)`: 64 characters that, lowered, are all
      in "0123456789abcdef". */
  function IsLegacySha256Hash(s: Json): (r: bool)
    ensures r <==> s.JStr? && |s.s| == 64 && forall i :: 0 <= i < 64 ==> IsHexChar(s.s[i])
  {
    if !s.JStr? || |s.s| != 64 then false
    else
      LowerHexAll(s.s);
      forall i :: 0 <= i < |Lower(s.s)| ==> Lower(s.s)[i] in "0123456789abcdef"
  }

  lemma LowerHexChar(c: char)
    ensures LowerChar(c) in "0123456789abcdef" <==> IsHexChar(c)
  {
    var hex := "0123456789abcdef";
    if IsHexChar(c) {
      if '0' <= c <= '9' {
        assert hex[c as int - '0' as int] == c;
      } else if 'a' <= c <= 'f' {
        assert hex[c as int - 'a' as int + 10] == c;
      } else {
        assert hex[c as int - 'A' as int + 10] == LowerChar(c);
      }
    }
  }

  lemma LowerHexAll(s: string)
    ensures (forall i :: 0 <= i < |Lower(s)| ==> Lower(s)[i] in "0123456789abcdef")
        <==> (forall i :: 0 <= i < |s| ==> IsHexChar(s[i]))
  {
    forall i | 0 <= i < |s|
      ensures Lower(s)[i] in "0123456789abcdef" <==> IsHexChar(s[i])
    {
      LowerHexChar(s[i]);
    }
  }

  /** `any(isinstance(r, dict) and bool(r.get("pin_hash")) for r in rs)`. */
  function AnyResidentPin(rs: seq<Json>): (r: bool)
    ensures r <==> exists i :: 0 <= i < |rs| && rs[i].JObj? && Truthy(Get(rs[i], "pin_hash"))
  {
    if rs == [] then false
    else (rs[0].JObj? && Truthy(Get(rs[0], "pin_hash"))) || AnyResidentPin(rs[1..])
  }

  /** `user_has_any_pin(record)`: the record is a dict and either it or
      one of the dict entries of its `residents` list has a PIN hash. */
  function UserHasAnyPin(record: Json): (r: bool)
    ensures r <==> (record.JObj? && (
      || Truthy(Get(record, "pin_hash"))
      || (Get(record, "residents").JArr? &&
          exists i :: 0 <= i < |Get(record, "residents").items| &&
            Get(record, "residents").items[i].JObj? && Truthy(Get(Get(record, "residents").items[i], "pin_hash")))))
  {
    if !record.JObj? then false
    else if Truthy(Get(record, "pin_hash")) then true
    else
      var residents := Get(record, "residents");
      residents.JArr? && AnyResidentPin(residents.items)
  }
}
