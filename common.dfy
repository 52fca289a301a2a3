/** Small value types and text/collection helpers shared by every component of the tracker. */
module Common {

  datatype Option<+T> = None | Some(value: T) {
    function GetOr(default: T): T {
      match this
      case Some(v) => v
      case None => default
    }
  }

  datatype Result<+T, +E> = Ok(value: T) | Err(error: E)

  /** One entry of a serializer's error dictionary: the field name and one message. */
  datatype FieldError = FieldError(field: string, message: string)

  /** A query or body parameter that Python treats as true: present and not the empty string. */
  predicate Given(p: Option<string>) {
    p.Some? && p.value != ""
  }

  /** Clears a weak user reference that names the deleted row (on_delete=SET_NULL). */
  function Unset(r: Option<nat>, gone: nat): (r': Option<nat>)
    ensures r' != Some(gone)
    ensures r != Some(gone) ==> r' == r
  {
    if r == Some(gone) then None else r
  }

  // ---------------------------------------------------------------------------
  // Text

  /** ASCII case folding; the database collation behind `icontains` is approximated by it. */
  function Lower(c: char): char {
    if 'A' <= c <= 'Z' then (c as int + 32) as char else c
  }

  function LowerStr(s: string): (r: string)
    ensures |r| == |s|
    ensures forall i :: 0 <= i < |s| ==> r[i] == Lower(s[i])
  {
    if s == [] then [] else [Lower(s[0])] + LowerStr(s[1..])
  }

  lemma {:induction false} LowerStrIdempotent(s: string)
    ensures LowerStr(LowerStr(s)) == LowerStr(s)
  {
    var once := LowerStr(s);
    var twice := LowerStr(once);
    assert forall i :: 0 <= i < |s| ==> twice[i] == once[i];
  }

  predicate StartsWith(s: string, p: string) {
    |p| <= |s| && s[..|p|] == p
  }

  /** Recursive substring test, the executable form of `t in s`. */
  predicate Contains(s: string, t: string)
    decreases |s|
  {
    StartsWith(s, t) || (|s| > 0 && Contains(s[1..], t))
  }

  /** The reference definition: `t` occurs in `s` starting at index `i`. */
  predicate OccursAt(s: string, t: string, i: nat) {
    i + |t| <= |s| && s[i..i + |t|] == t
  }

  lemma {:induction false} ContainsIffOccurs(s: string, t: string)
    ensures Contains(s, t) <==> exists i: nat :: OccursAt(s, t, i)
    decreases |s|
  {
    if StartsWith(s, t) {
      assert OccursAt(s, t, 0);
    }
    if |s| > 0 {
      ContainsIffOccurs(s[1..], t);
      if Contains(s[1..], t) {
        var i: nat :| OccursAt(s[1..], t, i);
        assert s[1..][i..i + |t|] == s[i + 1..i + 1 + |t|];
        assert OccursAt(s, t, i + 1);
      }
      if i: nat :| OccursAt(s, t, i) {
        if i > 0 {
          assert s[1..][i - 1..i - 1 + |t|] == s[i..i + |t|];
          assert OccursAt(s[1..], t, i - 1);
        } else {
          assert StartsWith(s, t);
        }
      }
    } else {
      if i: nat :| OccursAt(s, t, i) {
        assert i == 0 && t == [];
        assert StartsWith(s, t);
      }
    }
  }

  /** Django's `field__icontains=term`, with case folding approximated by ASCII `Lower`. */
  predicate IContains(s: string, t: string) {
    Contains(LowerStr(s), LowerStr(t))
  }

  /** The positional reference for `IContains`: the lowered term occurs somewhere in the lowered text. */
  ghost predicate IOccurs(s: string, t: string) {
    exists k: nat :: OccursAt(LowerStr(s), LowerStr(t), k)
  }

  lemma IContainsIffIOccurs(s: string, t: string)
    ensures IContains(s, t) <==> IOccurs(s, t)
  {
    ContainsIffOccurs(LowerStr(s), LowerStr(t));
  }

  lemma IContainsIgnoresCase(s: string, t: string)
    ensures IContains(LowerStr(s), t) == IContains(s, t)
    ensures IContains(s, LowerStr(t)) == IContains(s, t)
  {
    LowerStrIdempotent(s);
    LowerStrIdempotent(t);
  }

  /** Python's `str.isspace` on the ASCII range: tab to carriage return, the four separators 0x1C-0x1F, and space. */
  predicate IsSpace(c: char) {
    '\t' <= c <= '\r' || '\U{1C}' <= c <= '\U{1F}' || c == ' '
  }

  function StripLeft(s: string): (r: string)
    ensures |r| <= |s| && r == s[|s| - |r|..]
    ensures |r| > 0 ==> !IsSpace(r[0])
    ensures forall i :: 0 <= i < |s| - |r| ==> IsSpace(s[i])
  {
    if s != [] && IsSpace(s[0]) then StripLeft(s[1..]) else s
  }

  function StripRight(s: string): (r: string)
    ensures |r| <= |s| && r == s[..|r|]
    ensures |r| > 0 ==> !IsSpace(r[|r| - 1])
    ensures forall i :: |r| <= i < |s| ==> IsSpace(s[i])
  {
    if s != [] && IsSpace(s[|s| - 1]) then StripRight(s[..|s| - 1]) else s
  }

  /** Python's `str.strip()` (ASCII whitespace). */
  function Strip(s: string): (r: string)
    ensures |r| <= |s|
    ensures |r| > 0 ==> !IsSpace(r[0]) && !IsSpace(r[|r| - 1])
  {
    StripRight(StripLeft(s))
  }

  /** Python's `sep.join(parts)`. */
  function Join(parts: seq<string>, sep: string): string {
    if |parts| == 0 then ""
    else if |parts| == 1 then parts[0]
    else parts[0] + sep + Join(parts[1..], sep)
  }

  function Digit(d: nat): char
    requires d < 10
  {
    "0123456789"[d]
  }

  /** Python's `str(n)` for a non-negative integer: digits only, and no leading zero. */
  function DecimalString(n: nat): (r: string)
    ensures |r| > 0
    ensures forall i :: 0 <= i < |r| ==> '0' <= r[i] <= '9'
    ensures r[0] == '0' <==> n == 0
  {
    if n < 10 then [Digit(n)] else DecimalString(n / 10) + [Digit(n % 10)]
  }

  /** The value of a string of decimal digits, most significant first: Python's `int(s)`. */
  function DecimalValue(s: string): nat
    requires forall i :: 0 <= i < |s| ==> '0' <= s[i] <= '9'
  {
    if s == [] then 0 else DecimalValue(s[..|s| - 1]) * 10 + (s[|s| - 1] as int - '0' as int)
  }

  /** `int(str(n)) == n`: the decimal form denotes the number it was made from. */
  lemma {:induction false} DecimalRoundTrip(n: nat)
    ensures DecimalValue(DecimalString(n)) == n
  {
    var r := DecimalString(n);
    if n < 10 {
      assert r[..0] == [];
      assert r[0] as int - '0' as int == n;
    } else {
      DecimalRoundTrip(n / 10);
      assert r[..|r| - 1] == DecimalString(n / 10);
      assert r[|r| - 1] as int - '0' as int == n % 10;
    }
  }

  /** `str` is one-to-one: different numbers have different decimal forms. */
  lemma DecimalStringInjective(m: nat, n: nat)
    requires DecimalString(m) == DecimalString(n)
    ensures m == n
  {
    DecimalRoundTrip(m);
    DecimalRoundTrip(n);
  }

  // ---------------------------------------------------------------------------
  // Serializer field validation

  const REQUIRED_MESSAGE := "This field is required."
  const BLANK_MESSAGE := "This field may not be blank."

  function MinLengthMessage(n: nat): string {
    "Ensure this field has at least " + DecimalString(n) + " characters."
  }

  function MaxLengthMessage(n: nat): string {
    "Ensure this field has no more than " + DecimalString(n) + " characters."
  }

  /** The lengths the serializers put in their messages are spelled as Python spells them. */
  lemma LengthLimitsSpelled()
    ensures DecimalString(8) == "8"
    ensures DecimalString(255) == "255"
  {
    assert DecimalString(25) == [Digit(2)] + [Digit(5)];
  }

  /**
   * The error a string field of a serializer reports for a value (absent, blank, too short or
   * too long), or none. The field trims surrounding whitespace first (`trim_whitespace`), so a
   * value of spaces only is blank and the lengths are those of the trimmed value. `required` is
   * false for optional fields and for every field of a partial update; once one check fails
   * the later ones are not run.
   */
  function CharFieldErrors(field: string, value: Option<string>, required: bool, allowBlank: bool,
                           minLength: nat, maxLength: Option<nat>): (errs: seq<FieldError>)
    ensures |errs| <= 1
    ensures forall e :: e in errs ==> e.field == field
    ensures errs == [] <==>
      (value.None? ==> !required) &&
      (value.Some? && Strip(value.value) == "" ==> allowBlank) &&
      (value.Some? && Strip(value.value) != "" ==>
         minLength <= |Strip(value.value)| && (maxLength.Some? ==> |Strip(value.value)| <= maxLength.value))
  {
    match value
    case None => if required then [FieldError(field, REQUIRED_MESSAGE)] else []
    case Some(v) =>
      var t := Strip(v);
      if t == "" then (if allowBlank then [] else [FieldError(field, BLANK_MESSAGE)])
      else if |t| < minLength then [FieldError(field, MinLengthMessage(minLength))]
      else if maxLength.Some? && |t| > maxLength.value then [FieldError(field, MaxLengthMessage(maxLength.value))]
      else []
  }

  /** The value a string field passes on to the save: the client's text, trimmed. */
  function Cleaned(value: Option<string>): Option<string> {
    if value.Some? then Some(Strip(value.value)) else None
  }

  /** A string field that is present and not blank once trimmed. */
  predicate Filled(value: Option<string>) {
    value.Some? && Strip(value.value) != ""
  }

  /** The error of a primary-key field whose value must name an existing row. */
  function PrimaryKeyErrors(field: string, value: Option<nat>, required: bool, existing: set<nat>): (errs: seq<FieldError>)
    ensures |errs| <= 1
    ensures forall e :: e in errs ==> e.field == field
    ensures errs == [] <==> (value.None? ==> !required) && (value.Some? ==> value.value in existing)
  {
    match value
    case None => if required then [FieldError(field, REQUIRED_MESSAGE)] else []
    case Some(pk) =>
      if pk in existing then []
      else [FieldError(field, "Invalid pk \"" + DecimalString(pk) + "\" - object does not exist.")]
  }

  // ---------------------------------------------------------------------------
  // Tables

  /** The keys of a table below `n`. */
  function Below(keys: set<nat>, n: nat): set<nat> {
    set k | k in keys && k < n
  }

  lemma BelowStep(keys: set<nat>, n: nat)
    requires n > 0
    ensures n - 1 in keys ==> Below(keys, n) == Below(keys, n - 1) + {n - 1} && n - 1 !in Below(keys, n - 1)
    ensures n - 1 !in keys ==> Below(keys, n) == Below(keys, n - 1)
  {
  }

  /** The keys of a table below `n`, largest first: the order of `ORDER BY id DESC`. */
  function KeysDescending(keys: set<nat>, n: nat): (r: seq<nat>)
    ensures forall k :: k in r <==> k in keys && k < n
  {
    if n == 0 then []
    else if n - 1 in keys then [n - 1] + KeysDescending(keys, n - 1)
    else KeysDescending(keys, n - 1)
  }

  predicate Descending(s: seq<nat>) {
    forall a, b :: 0 <= a < b < |s| ==> s[a] > s[b]
  }

  lemma {:induction false} KeysDescendingSorted(keys: set<nat>, n: nat)
    ensures Descending(KeysDescending(keys, n))
  {
    if n > 0 {
      KeysDescendingSorted(keys, n - 1);
      var rest := KeysDescending(keys, n - 1);
      if n - 1 in keys {
        var r := [n - 1] + rest;
        assert KeysDescending(keys, n) == r;
        forall b | 0 < b < |r| ensures r[0] > r[b] {
          assert r[b] == rest[b - 1] && rest[b - 1] in rest;
        }
      }
    }
  }

  /** Each key appears once: the listing is as long as the set of keys below `n`. */
  lemma {:induction false} KeysDescendingCount(keys: set<nat>, n: nat)
    ensures |KeysDescending(keys, n)| == |Below(keys, n)|
  {
    if n == 0 {
      assert Below(keys, n) == {};
    } else {
      KeysDescendingCount(keys, n - 1);
      BelowStep(keys, n);
    }
  }

  /** The keys of a sequence of rows. */
  function KeysOf<T(==)>(rows: seq<T>, key: T -> nat): set<nat> {
    set x | x in rows :: key(x)
  }

  /** Rows whose keys are pairwise distinct have as many keys as rows. */
  lemma {:induction false} DistinctKeysCount<T>(rows: seq<T>, key: T -> nat)
    requires forall a, b :: 0 <= a < b < |rows| ==> key(rows[a]) != key(rows[b])
    ensures |KeysOf(rows, key)| == |rows|
  {
    if rows != [] {
      DistinctKeysCount(rows[1..], key);
      assert KeysOf(rows, key) == {key(rows[0])} + KeysOf(rows[1..], key) by {
        forall x | x in rows ensures x == rows[0] || x in rows[1..] {
          var j :| 0 <= j < |rows| && rows[j] == x;
          if j > 0 { assert rows[1..][j - 1] == x; }
        }
      }
      assert key(rows[0]) !in KeysOf(rows[1..], key) by {
        forall x | x in rows[1..] ensures key(x) != key(rows[0]) {
          var j :| 0 <= j < |rows[1..]| && rows[1..][j] == x;
          assert rows[j + 1] == x;
        }
      }
    }
  }

  /** The rows of a table fetched by a sequence of keys. */
  function Rows<T>(m: map<nat, T>, ids: seq<nat>): (r: seq<T>)
    requires forall k :: k in ids ==> k in m
    ensures |r| == |ids|
    ensures forall k :: 0 <= k < |ids| ==> r[k] == m[ids[k]]
  {
    if ids == [] then [] else [m[ids[0]]] + Rows(m, ids[1..])
  }

  /** A table listed by descending key, which the tables' invariant makes newest first. */
  function Listing<T>(m: map<nat, T>, next: nat): seq<T> {
    Rows(m, KeysDescending(m.Keys, next))
  }

  /** Listing a table by descending key: every row of the table is listed, and only those. */
  lemma ListingMembers<T>(m: map<nat, T>, n: nat)
    requires forall k :: k in m ==> k < n
    ensures forall k :: k in m ==> m[k] in Rows(m, KeysDescending(m.Keys, n))
    ensures forall x :: x in Rows(m, KeysDescending(m.Keys, n)) ==> exists k :: k in m && m[k] == x
  {
    var ids := KeysDescending(m.Keys, n);
    var r := Rows(m, ids);
    forall k | k in m ensures m[k] in r {
      assert k in ids;
      var j :| 0 <= j < |ids| && ids[j] == k;
      assert r[j] == m[k];
    }
    forall x | x in r ensures exists k :: k in m && m[k] == x {
      var j :| 0 <= j < |r| && r[j] == x;
      assert ids[j] in ids;
    }
  }

  /** With every key below `n`, the listing has one row per key. */
  lemma ListingLength<T>(m: map<nat, T>, n: nat)
    requires forall k :: k in m ==> k < n
    ensures |Rows(m, KeysDescending(m.Keys, n))| == |m|
  {
    KeysDescendingCount(m.Keys, n);
    assert Below(m.Keys, n) == m.Keys;
  }
}
