/** The text input (`CustomTextInput`): its value, the sanitising of a
    number field without spinners (digits and the first `.` only), the paste
    guard of such a field, the input type and mode, and when the clear and
    password icons show. */
module CustomTextInput {
  import opened JsValues

  predicate Numeric(c: char) { IsDigit(c) || c == '.' }

  const IsDot := (c: char) => c == '.'
  const NotDot := (c: char) => c != '.'
  const IsNumeric := (c: char) => Numeric(c)
  const IsDigitChar := (c: char) => IsDigit(c)

  /** `(s.match(/\./g) || []).length` */
  function DotCount(s: string): nat
  {
    |Filter(s, IsDot)|
  }

  lemma NoDotIffNoCount(s: string)
    ensures DotCount(s) == 0 <==> '.' !in s
  {
    if '.' !in s {
      FilterKeepsNone(s, IsDot);
    } else {
      assert '.' in Filter(s, IsDot);
    }
  }

  lemma DotCountAppend(a: string, b: string)
    ensures DotCount(a + b) == DotCount(a) + DotCount(b)
  {
    FilterAppend(a, b, IsDot);
  }

  /** Splitting at the first `.`: the head up to it holds one `.`. */
  lemma FirstDotCount(t: string, k: nat)
    requires k < |t| && t[k] == '.' && '.' !in t[..k]
    ensures DotCount(t[..k + 1]) == 1
    ensures DotCount(t) == 1 + DotCount(t[k + 1..])
  {
    var head := t[..k];
    SliceStep(t, k);
    NoDotIffNoCount(head);
    DotCountDot(head);
    SliceSplit(t, k + 1);
    DotCountAppend(t[..k + 1], t[k + 1..]);
  }

  lemma DotCountDot(head: string)
    ensures DotCount(head + ['.']) == DotCount(head) + 1
  {
    var dot: string := ['.'];
    assert DotCount(dot) == 1 by {
      FilterKeepsAll(dot, IsDot);
    }
    DotCountAppend(head, dot);
  }

  /** `handleChange`'s sanitising: `replace(/[^\d.]/g, '')`, then, when more
      than one `.` is left, everything up to the first `.` followed by the
      rest with its dots removed. */
  function Sanitize(s: string): string
  {
    var t := Filter(s, IsNumeric);
    if DotCount(t) > 1 then
      var k := IndexOf(t, '.');
      assert k >= 0 by {
        NoDotIffNoCount(t);
      }
      t[..k + 1] + Filter(t[k + 1..], NotDot)
    else t
  }

  /** The sanitised value holds only digits and `.`. */
  lemma SanitizeNumeric(s: string)
    ensures forall i :: 0 <= i < |Sanitize(s)| ==> Numeric(Sanitize(s)[i])
  {
    var r := Sanitize(s);
    SanitizeFromFiltered(s);
    forall i | 0 <= i < |r| ensures Numeric(r[i]) {
      assert r[i] in r;
    }
  }

  /** Every character of the sanitised value is one the first filter kept. */
  lemma SanitizeFromFiltered(s: string)
    ensures forall c :: c in Sanitize(s) ==> c in Filter(s, IsNumeric)
  {
    var t := Filter(s, IsNumeric);
    if DotCount(t) > 1 {
      NoDotIffNoCount(t);
      var k := IndexOf(t, '.');
      var rest := t[k + 1..];
      assert t == t[..k + 1] + rest;
      assert forall c :: c in Filter(rest, NotDot) ==> c in rest;
    }
  }

  /** The sanitised value has at most one `.`. */
  lemma SanitizeOneDot(s: string)
    ensures DotCount(Sanitize(s)) <= 1
  {
    var t := Filter(s, IsNumeric);
    if DotCount(t) > 1 {
      NoDotIffNoCount(t);
      var k := IndexOf(t, '.');
      FirstDotCount(t, k);
      var kept := Filter(t[k + 1..], NotDot);
      NoDotIffNoCount(kept);
      DotCountAppend(t[..k + 1], kept);
    }
  }

  /** The digits of the sanitised value are the digits of the input, in
      order. */
  lemma SanitizeKeepsDigits(s: string)
    ensures Filter(Sanitize(s), IsDigitChar) == Filter(s, IsDigitChar)
  {
    var t := Filter(s, IsNumeric);
    NumericKeepsDigits(s);
    if DotCount(t) > 1 {
      NoDotIffNoCount(t);
      var k := IndexOf(t, '.');
      var head, rest := t[..k + 1], t[k + 1..];
      assert t == head + rest;
      assert Sanitize(s) == head + Filter(rest, NotDot);
      DroppedDotsKeepDigits(head, rest);
    }
  }

  lemma NumericKeepsDigits(s: string)
    ensures Filter(Filter(s, IsNumeric), IsDigitChar) == Filter(s, IsDigitChar)
  {
    FilterFilter(s, IsNumeric, IsDigitChar, IsDigitChar);
  }

  lemma DroppedDotsKeepDigits(head: string, rest: string)
    ensures Filter(head + Filter(rest, NotDot), IsDigitChar) == Filter(head + rest, IsDigitChar)
  {
    var kept := Filter(rest, NotDot);
    FilterAppend(head, kept, IsDigitChar);
    FilterFilter(rest, NotDot, IsDigitChar, IsDigitChar);
    FilterAppend(head, rest, IsDigitChar);
  }

  /** The strings sanitising leaves alone are exactly those of digits and
      `.` with at most one `.`. */
  lemma SanitizeFixedPoints(s: string)
    ensures Sanitize(s) == s <==> (forall i :: 0 <= i < |s| ==> Numeric(s[i])) && DotCount(s) <= 1
  {
    if (forall i :: 0 <= i < |s| ==> Numeric(s[i])) && DotCount(s) <= 1 {
      FilterKeepsAll(s, IsNumeric);
    } else {
      SanitizeNumeric(s);
      SanitizeOneDot(s);
    }
  }

  /** Sanitising twice is sanitising once. */
  lemma SanitizeIdempotent(s: string)
    ensures Sanitize(Sanitize(s)) == Sanitize(s)
  {
    SanitizeNumeric(s);
    SanitizeOneDot(s);
    SanitizeFixedPoints(Sanitize(s));
  }

  /** `/^\d*\.?\d*$/`: digits, then at most one `.` followed by digits. */
  predicate MatchesNumberPattern(s: string)
  {
    AllDigits(s) || exists k :: 0 <= k < |s| && s[k] == '.' && AllDigits(s[..k]) && AllDigits(s[k + 1..])
  }

  lemma DigitsHaveNoDot(s: string)
    requires AllDigits(s)
    ensures DotCount(s) == 0 && forall i :: 0 <= i < |s| ==> Numeric(s[i])
  {
    NoDotIffNoCount(s);
    assert '.' !in s by {
      assert forall i :: 0 <= i < |s| ==> s[i] != '.';
    }
  }

  lemma DigitsAroundDot(head: string, rest: string)
    requires AllDigits(head) && AllDigits(rest)
    ensures var s := head + ['.'] + rest; forall i :: 0 <= i < |s| ==> Numeric(s[i])
  {
    var s := head + ['.'] + rest;
    forall i | 0 <= i < |s| ensures Numeric(s[i]) {
      if i < |head| {
        assert s[i] == head[i];
      } else if i > |head| {
        assert s[i] == rest[i - |head| - 1];
      }
    }
  }

  lemma OneDotBetween(head: string, rest: string)
    requires DotCount(head) == 0 && DotCount(rest) == 0
    ensures DotCount(head + ['.'] + rest) == 1
  {
    DotCountDot(head);
    DotCountAppend(head + ['.'], rest);
  }

  lemma PatternIsClean(s: string)
    requires MatchesNumberPattern(s)
    ensures (forall i :: 0 <= i < |s| ==> Numeric(s[i])) && DotCount(s) <= 1
  {
    if AllDigits(s) {
      DigitsHaveNoDot(s);
    } else {
      var j :| 0 <= j < |s| && s[j] == '.' && AllDigits(s[..j]) && AllDigits(s[j + 1..]);
      var head, rest := s[..j], s[j + 1..];
      SliceAround(s, j);
      DigitsHaveNoDot(head);
      DigitsHaveNoDot(rest);
      OneDotBetween(head, rest);
      DigitsAroundDot(head, rest);
    }
  }

  lemma CleanIsPattern(s: string)
    requires (forall i :: 0 <= i < |s| ==> Numeric(s[i])) && DotCount(s) <= 1
    ensures MatchesNumberPattern(s)
  {
    if '.' !in s {
      assert forall i :: 0 <= i < |s| ==> s[i] != '.';
    } else {
      var k := IndexOf(s, '.');
      FirstDotCount(s, k);
      var head, rest := s[..k], s[k + 1..];
      NoDotIffNoCount(rest);
      assert AllDigits(head) by {
        assert forall i :: 0 <= i < |head| ==> head[i] == s[i] && head[i] in head;
      }
      assert AllDigits(rest) by {
        assert forall i :: 0 <= i < |rest| ==> rest[i] == s[k + 1 + i] && rest[i] in rest;
      }
    }
  }

  /** The paste pattern accepts exactly the strings sanitising leaves
      alone. */
  lemma PatternIffClean(s: string)
    ensures MatchesNumberPattern(s) <==> Sanitize(s) == s
  {
    SanitizeFixedPoints(s);
    if MatchesNumberPattern(s) {
      PatternIsClean(s);
    }
    if Sanitize(s) == s {
      CleanIsPattern(s);
    }
  }

  /** `getInputMode()` */
  function InputMode(kind: string): (mode: string)
    ensures kind == "number" ==> mode == "decimal"
    ensures kind == "email" || kind == "tel" ==> mode == kind
    ensures kind !in {"number", "email", "tel"} ==> mode == "text"
  {
    if kind == "number" then "decimal"
    else if kind == "email" then "email"
    else if kind == "tel" then "tel"
    else "text"
  }

  /** The icons after the field: clear, the open or crossed-out eye, and
      the caller's own `suffix` node. */
  datatype SuffixIcon = ClearIcon | EyeIcon | EyeInvisibleIcon | CustomSuffix

  class TextInput {
    /** the `type` prop */
    const kind: string
    const hideNumberSpinners: bool
    const clearable: bool
    const disabled: bool
    const readOnly: bool
    var internalValue: string
    var isFocused: bool
    var showPassword: bool

    /** `value || ''`, for a string `value` (`None` is `undefined`). */
    static function ValueOrEmpty(value: Option<string>): string
    {
      if value.Some? then value.value else ""
    }

    constructor(value: Option<string>, kind: string, hideNumberSpinners: bool,
                clearable: bool, disabled: bool, readOnly: bool)
      ensures this.kind == kind && this.hideNumberSpinners == hideNumberSpinners
      ensures this.clearable == clearable && this.disabled == disabled && this.readOnly == readOnly
      ensures internalValue == ValueOrEmpty(value) && !isFocused && !showPassword
    {
      this.kind := kind;
      this.hideNumberSpinners := hideNumberSpinners;
      this.clearable := clearable;
      this.disabled := disabled;
      this.readOnly := readOnly;
      internalValue := ValueOrEmpty(value);
      isFocused := false;
      showPassword := false;
    }

    /** A number field without spinners sanitises what is typed. */
    predicate Sanitizes()
      reads this
    {
      kind == "number" && hideNumberSpinners
    }

    /** A new `value` prop replaces the shown value. */
    method SyncValue(value: Option<string>)
      modifies this`internalValue
      ensures internalValue == ValueOrEmpty(value)
    {
      internalValue := ValueOrEmpty(value);
    }

    /** `handleChange(e)`: the typed text, sanitised in a number field
        without spinners and passed through otherwise, is shown and
        reported. */
    method HandleChange(typed: string) returns (reported: string)
      modifies this`internalValue
      ensures Sanitizes() ==> reported == Sanitize(typed)
      ensures !Sanitizes() ==> reported == typed
      ensures internalValue == reported
    {
      var newValue := typed;
      if kind == "number" && hideNumberSpinners {
        newValue := Sanitize(newValue);
      }
      internalValue := newValue;
      reported := newValue;
    }

    /** `handlePaste(e)`: whether the paste is blocked. */
    method HandlePaste(pasted: string) returns (blocked: bool)
      ensures blocked <==> Sanitizes() && !MatchesNumberPattern(pasted)
    {
      blocked := kind == "number" && hideNumberSpinners && !MatchesNumberPattern(pasted);
    }

    /** `handleClear(e)`: the value is emptied and `''` reported; the clear
        icon goes away. */
    method HandleClear() returns (reported: string)
      modifies this`internalValue
      ensures internalValue == "" && reported == ""
      ensures !ShowsClear()
    {
      internalValue := "";
      reported := "";
    }

    method HandleFocus()
      modifies this`isFocused
      ensures isFocused
    {
      isFocused := true;
    }

    method HandleBlur()
      modifies this`isFocused
      ensures !isFocused
    {
      isFocused := false;
    }

    /** The eye stays put and swaps between open and crossed out. */
    method TogglePasswordVisibility()
      modifies this`showPassword
      ensures showPassword == !old(showPassword)
      ensures ShowsPasswordToggle() == old(ShowsPasswordToggle()) && ShowsClear() == old(ShowsClear())
      ensures forall suffix :: EyeIcon in old(SuffixIcons(suffix)) <==> EyeInvisibleIcon in SuffixIcons(suffix)
    {
      showPassword := !showPassword;
    }

    /** `getInputType()`: a password field shown in clear is `text`. */
    function InputType(): (t: string)
      reads this
      ensures kind == "password" ==> t == (if showPassword then "text" else "password")
      ensures kind != "password" ==> t == kind
    {
      if kind == "password" then (if showPassword then "text" else "password") else kind
    }

    /** The clear icon shows for a clearable, non-empty, editable field. */
    predicate ShowsClear()
      reads this
    {
      clearable && internalValue != "" && !disabled && !readOnly
    }

    /** The eye icon shows for an editable password field. */
    predicate ShowsPasswordToggle()
      reads this
    {
      kind == "password" && !disabled && !readOnly
    }

    /** `renderSuffixIcons()`: the clear icon first, then the eye, which is
        crossed out while the password is shown, then the caller's `suffix`
        when one is given. No icon at all renders as `null`, here `[]`. */
    function SuffixIcons(suffix: bool): (icons: seq<SuffixIcon>)
      reads this
      ensures ClearIcon in icons <==> ShowsClear()
      ensures EyeIcon in icons <==> ShowsPasswordToggle() && !showPassword
      ensures EyeInvisibleIcon in icons <==> ShowsPasswordToggle() && showPassword
      ensures CustomSuffix in icons <==> suffix
      ensures suffix ==> icons[|icons| - 1] == CustomSuffix
      ensures ShowsClear() ==> icons[0] == ClearIcon
      ensures |icons| <= 3
    {
      (if ShowsClear() then [ClearIcon] else [])
      + (if ShowsPasswordToggle() then [if showPassword then EyeInvisibleIcon else EyeIcon] else [])
      + (if suffix then [CustomSuffix] else [])
    }
  }

  /** While the eye shows, it is crossed out exactly when the field renders
      as `text`, that is, when the password can be read. */
  lemma EyeMatchesInputType(t: TextInput, suffix: bool)
    requires t.ShowsPasswordToggle()
    ensures EyeInvisibleIcon in t.SuffixIcons(suffix) <==> t.InputType() == "text"
    ensures EyeIcon in t.SuffixIcons(suffix) <==> t.InputType() == "password"
  {
  }

  /** A field that is disabled or read-only shows only the caller's suffix. */
  lemma LockedShowsNoIcons(t: TextInput, suffix: bool)
    requires t.disabled || t.readOnly
    ensures t.SuffixIcons(suffix) == if suffix then [CustomSuffix] else []
  {
    assert !t.ShowsClear() && !t.ShowsPasswordToggle();
  }

  /** What a sanitising field reports is accepted by its own paste guard
      and is sanitised already. */
  lemma ReportedIsClean(typed: string)
    ensures MatchesNumberPattern(Sanitize(typed))
    ensures Sanitize(Sanitize(typed)) == Sanitize(typed)
  {
    SanitizeIdempotent(typed);
    PatternIffClean(Sanitize(typed));
  }
}
