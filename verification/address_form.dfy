/**
 `handleSubmit` of src/components/Map/AddressForm.tsx: the input field's
 text, its check with `String.prototype.trim`, the call to `onAddAddress`
 and what happens to the field once that promise settles. The promise's
 outcome is a parameter, so the form is modelled against any caller.
 */
module AddressForm {
  import opened Wrappers
  import opened LocationStore

  datatype FormState = FormState(input: string)

  const EmptyMessage: string := "Please enter an address"
  const AddedMessage: string := "Address added successfully"
  const AddFailedMessage: string := "Failed to add address"

  /**
   The characters ECMAScript's `trim` strips: the WhiteSpace code points
   (tab, vertical tab, form feed, no-break space, byte order mark and the
   Unicode Zs space separators) and the LineTerminator code points.
   */
  predicate IsJsWhitespace(c: char)
  {
    || c == '\U{0009}' || c == '\U{000B}' || c == '\U{000C}' || c == '\U{FEFF}'
    || c == '\U{0020}' || c == '\U{00A0}' || c == '\U{1680}' || ('\U{2000}' <= c <= '\U{200A}')
    || c == '\U{202F}' || c == '\U{205F}' || c == '\U{3000}'
    || c == '\U{000A}' || c == '\U{000D}' || c == '\U{2028}' || c == '\U{2029}'
  }

  /** Every character is whitespace (this includes the empty string). */
  ghost predicate IsBlank(s: string)
  {
    forall i :: 0 <= i < |s| ==> IsJsWhitespace(s[i])
  }

  /** Drop leading whitespace. */
  function TrimStart(s: string): (r: string)
    ensures |r| <= |s| && r == s[|s| - |r|..]
    ensures forall i :: 0 <= i < |s| - |r| ==> IsJsWhitespace(s[i])
    ensures r != [] ==> !IsJsWhitespace(r[0])
  {
    if s != [] && IsJsWhitespace(s[0]) then TrimStart(s[1..]) else s
  }

  /** Drop trailing whitespace. */
  function TrimEnd(s: string): (r: string)
    ensures |r| <= |s| && r == s[..|r|]
    ensures forall i :: |r| <= i < |s| ==> IsJsWhitespace(s[i])
    ensures r != [] ==> !IsJsWhitespace(r[|r| - 1])
  {
    if s != [] && IsJsWhitespace(s[|s| - 1]) then TrimEnd(s[..|s| - 1]) else s
  }

  /** `String.prototype.trim`: what remains neither starts nor ends with whitespace. */
  function Trim(s: string): (r: string)
    ensures |r| <= |s|
    ensures r != [] ==> !IsJsWhitespace(r[0]) && !IsJsWhitespace(r[|r| - 1])
  {
    var t := TrimStart(s);
    var u := TrimEnd(t);
    assert u != [] ==> u[0] == t[0];
    u
  }

  /** Where `trim` cuts: the text before `i` and from `j` on is whitespace, and `trim` keeps the rest. */
  lemma TrimCuts(s: string) returns (i: nat, j: nat)
    ensures i <= j <= |s| && Trim(s) == s[i..j]
    ensures forall k :: 0 <= k < i ==> IsJsWhitespace(s[k])
    ensures forall k :: j <= k < |s| ==> IsJsWhitespace(s[k])
  {
    var t := TrimStart(s);
    i := |s| - |t|;
    var u := TrimEnd(t);
    j := i + |u|;
    assert Trim(s) == s[i..j] by {
      assert t == s[i..] && u == t[..|u|];
    }
    TrimEndTail(s, i, t);
  }

  /** The whitespace `TrimEnd` drops from a suffix of the text is whitespace of the text. */
  lemma TrimEndTail(s: string, i: nat, t: string)
    requires i <= |s| && t == s[i..]
    ensures forall k :: i + |TrimEnd(t)| <= k < |s| ==> IsJsWhitespace(s[k])
  {
    forall k | i + |TrimEnd(t)| <= k < |s| ensures IsJsWhitespace(s[k]) {
      assert s[k] == t[k - i];
    }
  }

  /** The result of `trim` is a slice of the text with whitespace only outside it and none at its ends. */
  lemma TrimIsInnerSlice(s: string)
    ensures exists i, j :: 0 <= i <= j <= |s| && Trim(s) == s[i..j]
              && (forall k :: 0 <= k < i ==> IsJsWhitespace(s[k]))
              && (forall k :: j <= k < |s| ==> IsJsWhitespace(s[k]))
    ensures Trim(s) != [] ==> !IsJsWhitespace(Trim(s)[0]) && !IsJsWhitespace(Trim(s)[|Trim(s)| - 1])
  {
    var i, j := TrimCuts(s);
    var t := TrimStart(s);
    if TrimEnd(t) != [] {
      assert TrimEnd(t)[0] == t[0];
    }
  }

  /** `!text.trim()` holds exactly when the text is empty or all whitespace. */
  lemma TrimEmptyIffBlank(s: string)
    ensures Trim(s) == "" <==> IsBlank(s)
  {
    var i, j := TrimCuts(s);
    TrimIsInnerSlice(s);
    if Trim(s) == "" {
      assert i == j;
    }
  }

  /**
   One submit: the field afterwards, the text passed to `onAddAddress` (None
   when it is not called), and the toasts shown.
   */
  datatype SubmitRun = SubmitRun(form: FormState, sent: Option<string>, toasts: seq<Toast>)

  /**
   `handleSubmit`, given whether the `onAddAddress` promise rejects: a blank
   field is refused before any call; otherwise the untrimmed text is passed on,
   and the field is cleared only when the promise resolves.
   */
  function Submit(form: FormState, addRejects: bool): (r: SubmitRun)
    ensures IsBlank(form.input) ==>
              r.sent == None && r.form == form && r.toasts == [ErrorToast(EmptyMessage)]
    ensures !IsBlank(form.input) ==> r.sent == Some(form.input)
    ensures !IsBlank(form.input) && !addRejects ==>
              r.form.input == "" && r.toasts == [SuccessToast(AddedMessage)]
    ensures !IsBlank(form.input) && addRejects ==>
              r.form == form && r.toasts == [ErrorToast(AddFailedMessage)]
  {
    TrimEmptyIffBlank(form.input);
    if Trim(form.input) == "" then
      SubmitRun(form, None, [ErrorToast(EmptyMessage)])
    else if addRejects then
      SubmitRun(form, Some(form.input), [ErrorToast(AddFailedMessage)])
    else
      SubmitRun(FormState(""), Some(form.input), [SuccessToast(AddedMessage)])
  }
}
