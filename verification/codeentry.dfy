/**
 * The one-time-code widget shown while an account awaits verification: six
 * single-character slots, the slot the widget last moved the cursor to, and a
 * thirty-second cooldown before a new code may be requested. The browser's
 * focus calls are modelled by the resulting slot index, and the one-second
 * interval by an explicit `Tick`.
 */
module CodeEntry {
  import opened Types
  import opened JsText

  /** Number of code slots. */
  const Slots := 6

  /** Seconds to wait before a new code may be requested. */
  const Cooldown := 30

  /** The `key` of the key-down event that may move the cursor back. */
  const BackspaceKey := "Backspace"

  /**
   * The widget's state: the slot texts, the slot the widget last focused (`None`
   * until it has focused one), the seconds left on the cooldown and whether the
   * resend button is enabled.
   */
  datatype OtpState = OtpState(otp: seq<string>, focus: Option<nat>, timer: int, canResend: bool)

  /** A single character `c` with `isNaN(Number(c))` false: an ASCII digit, or white space (which converts to 0). */
  predicate IsNumericChar(c: char)
  {
    IsAsciiDigit(c) || IsWs(c)
  }

  /**
   * `isNaN(Number(v))` is false, for text made of digits and white space: after
   * trimming, only decimal digits remain (the empty text converts to 0).
   */
  predicate IsNumericText(v: string)
  {
    var t := Trim(v);
    forall k | 0 <= k < |t| :: IsAsciiDigit(t[k])
  }

  /** On a single character the text test and the character test agree. */
  lemma NumericCharAgreesWithText(c: char)
    ensures IsNumericText([c]) <==> IsNumericChar(c)
  {
    var t := Trim([c]);
    if !IsWs(c) {
      assert c in t;
      assert t == [c];
    }
  }

  /** Text that passes the numeric test holds only digits and white space. */
  lemma NumericTextHasNumericChars(v: string)
    requires IsNumericText(v)
    ensures forall k | 0 <= k < |v| :: IsNumericChar(v[k])
  {
    var t := Trim(v);
    forall k | 0 <= k < |v| ensures IsNumericChar(v[k]) {
      if !IsWs(v[k]) {
        var j :| 0 <= j < |t| && t[j] == v[k];
      }
    }
  }

  /** A slot holds nothing or one numeric character. */
  predicate SlotOk(slot: string)
  {
    |slot| <= 1 && forall k | 0 <= k < |slot| :: IsNumericChar(slot[k])
  }

  /** The widget's invariant: six well-formed slots, a cursor inside them, and resend enabled exactly when the cooldown is over. */
  ghost predicate Valid(s: OtpState)
  {
    && |s.otp| == Slots
    && (forall i | 0 <= i < Slots :: SlotOk(s.otp[i]))
    && (s.focus.Some? ==> s.focus.value < Slots)
    && 0 <= s.timer <= Cooldown
    && (s.canResend <==> s.timer == 0)
  }

  /** The widget as first rendered: six empty slots, the full cooldown, resend disabled. */
  function Initial(): (s: OtpState)
    ensures Valid(s)
    ensures forall i | 0 <= i < Slots :: s.otp[i] == ""
    ensures !s.canResend && s.timer == Cooldown
  {
    OtpState(seq(Slots, _ => ""), None, Cooldown, false)
  }

  /** `value.substring(value.length - 1)`: the last character, or the empty text. */
  function LastChar(value: string): (r: string)
    ensures |r| == (if value == "" then 0 else 1)
    ensures value != "" ==> r[0] == value[|value| - 1]
  {
    if value == "" then "" else [value[|value| - 1]]
  }

  /**
   * A change event on slot `i` with the input's new text `value`: non-numeric text is
   * ignored; otherwise the slot keeps only the last character, and a non-empty entry
   * moves the cursor to the next slot unless this is the last one.
   */
  function ChangeSlot(s: OtpState, value: string, i: nat): (r: OtpState)
    requires Valid(s) && i < Slots
    ensures Valid(r)
  {
    if !IsNumericText(value) && value != "" then s
    else
      NumericTextHasNumericChars(value);
      s.(otp := s.otp[i := LastChar(value)],
         focus := if value != "" && i < Slots - 1 then Some(i + 1) else s.focus)
  }

  /** What a change event does: nothing on non-numeric text, otherwise only slot `i` and the cursor move. */
  lemma ChangeSlotEffect(s: OtpState, value: string, i: nat)
    requires Valid(s) && i < Slots
    ensures var r := ChangeSlot(s, value, i);
      && (value != "" && !IsNumericText(value) ==> r == s)
      && (value == "" || IsNumericText(value) ==>
            && r.otp[i] == LastChar(value)
            && (forall j | 0 <= j < Slots && j != i :: r.otp[j] == s.otp[j])
            && (r.focus == if value != "" && i < Slots - 1 then Some(i + 1) else s.focus))
      && r.timer == s.timer && r.canResend == s.canResend
  {
  }

  /** Typing a character that is neither a digit nor white space leaves the widget as it was. */
  lemma LetterIsRejected(s: OtpState, c: char, i: nat)
    requires Valid(s) && i < Slots
    requires !IsNumericChar(c)
    ensures ChangeSlot(s, [c], i) == s
  {
    NumericCharAgreesWithText(c);
  }

  /** A key-down on slot `i`: Backspace on an empty slot other than the first moves the cursor back one slot. */
  function KeyDown(s: OtpState, key: string, i: nat): (r: OtpState)
    requires Valid(s) && i < Slots
    ensures Valid(r)
    ensures r.otp == s.otp && r.timer == s.timer && r.canResend == s.canResend
    ensures r.focus != s.focus <==> key == BackspaceKey && s.otp[i] == "" && 0 < i && s.focus != Some(i - 1)
    ensures r.focus != s.focus ==> r.focus == Some(i - 1)
  {
    if key == BackspaceKey && s.otp[i] == "" && i > 0 then s.(focus := Some(i - 1)) else s
  }

  /** The clipboard characters a paste considers: at most the first six. */
  function PasteData(text: string): (data: string)
    ensures |data| <= Slots && |data| <= |text| && data == text[..|data|]
    ensures |data| == if |text| < Slots then |text| else Slots
  {
    if |text| < Slots then text else text[..Slots]
  }

  /** Writes `data[j]` into slot `j` for every `j` from `i` on, as the paste handler's loop does. */
  function Distribute(otp: seq<string>, data: string, i: nat): (r: seq<string>)
    requires i <= |data| <= |otp|
    ensures |r| == |otp|
    ensures forall j | 0 <= j < |otp| :: r[j] == if i <= j < |data| then [data[j]] else otp[j]
    decreases |data| - i
  {
    if i == |data| then otp else Distribute(otp[i := [data[i]]], data, i + 1)
  }

  /**
   * A paste: when every considered character is numeric, they overwrite the slots from
   * the first one on and the cursor moves to the slot after them (the last slot at most);
   * otherwise nothing changes.
   */
  function Paste(s: OtpState, text: string): (r: OtpState)
    requires Valid(s)
    ensures Valid(r)
  {
    var data := PasteData(text);
    if forall k | 0 <= k < |data| :: IsNumericChar(data[k]) then
      s.(otp := Distribute(s.otp, data, 0), focus := Some(if |data| < Slots - 1 then |data| else Slots - 1))
    else s
  }

  /** What a paste does to each slot and to the cursor. */
  lemma PasteEffect(s: OtpState, text: string)
    requires Valid(s)
    ensures var data := PasteData(text); var r := Paste(s, text);
      && ((forall k | 0 <= k < |data| :: IsNumericChar(data[k])) ==>
            && (forall j | 0 <= j < |data| :: r.otp[j] == [text[j]])
            && (forall j | |data| <= j < Slots :: r.otp[j] == s.otp[j])
            && r.focus == Some(if |data| < Slots - 1 then |data| else Slots - 1))
      && ((exists k | 0 <= k < |data| :: !IsNumericChar(data[k])) ==> r == s)
      && r.timer == s.timer && r.canResend == s.canResend
  {
  }

  /** Pasting `98765` into an empty widget fills the first five slots and puts the cursor on the sixth. */
  lemma PasteFiveDigitsExample()
    ensures Paste(Initial(), "98765").otp == ["9", "8", "7", "6", "5", ""]
    ensures Paste(Initial(), "98765").focus == Some(5)
  {
    var text := "98765";
    assert forall k | 0 <= k < |text| :: IsNumericChar(text[k]);
    PasteEffect(Initial(), text);
  }

  /** `otp.join("")`. */
  function Join(parts: seq<string>): (r: string)
    ensures (forall i | 0 <= i < |parts| :: |parts[i]| <= 1) ==>
      && |r| <= |parts|
      && (|r| == |parts| <==> forall i | 0 <= i < |parts| :: parts[i] != "")
    ensures (forall i | 0 <= i < |parts| :: |parts[i]| == 1) ==>
      |r| == |parts| && forall i | 0 <= i < |parts| :: r[i] == parts[i][0]
  {
    if parts == [] then "" else parts[0] + Join(parts[1..])
  }

  /** The submit button is enabled: no request in flight and at least six characters entered. */
  predicate SubmitEnabled(s: OtpState, loading: bool)
  {
    !loading && |Join(s.otp)| >= Slots
  }

  /** Submitting the widget: the joined code, if the button is enabled and the code is six characters long. */
  function Submit(s: OtpState, loading: bool): (code: Option<string>)
    requires Valid(s)
    ensures code.Some? ==> !loading && |code.value| == Slots
    ensures code.Some? ==> forall i | 0 <= i < Slots :: s.otp[i] != "" && code.value[i] == s.otp[i][0]
  {
    if SubmitEnabled(s, loading) && |Join(s.otp)| == Slots then Some(Join(s.otp)) else None
  }

  /** A code is handed on exactly when nothing is in flight and every slot is filled; it is the slots read in order. */
  lemma SubmitFiresIffComplete(s: OtpState, loading: bool)
    requires Valid(s)
    ensures Submit(s, loading).Some? <==> !loading && forall i | 0 <= i < Slots :: s.otp[i] != ""
    ensures Submit(s, loading).Some? ==>
      var code := Submit(s, loading).value;
      |code| == Slots && forall i | 0 <= i < Slots :: code[i] == s.otp[i][0]
  {
  }

  /** One second of the cooldown: the timer counts down to zero, and reaching zero enables resend. */
  function Tick(s: OtpState): (r: OtpState)
    requires Valid(s)
    ensures Valid(r)
    ensures r.otp == s.otp && r.focus == s.focus
    ensures r.timer == if s.timer > 0 then s.timer - 1 else 0
  {
    if s.timer > 0 then s.(timer := s.timer - 1, canResend := s.timer - 1 == 0 || s.canResend) else s
  }

  /** `n` seconds of the cooldown. */
  function Ticks(s: OtpState, n: nat): (r: OtpState)
    requires Valid(s)
    ensures Valid(r)
    decreases n
  {
    if n == 0 then s else Ticks(Tick(s), n - 1)
  }

  /** After `n` seconds the timer shows the remaining cooldown, never below zero, and resend is enabled once it is spent. */
  lemma {:induction false} CooldownCountsDown(s: OtpState, n: nat)
    requires Valid(s)
    ensures Ticks(s, n).timer == if n < s.timer then s.timer - n else 0
    ensures Ticks(s, n).canResend <==> s.timer <= n
    ensures Ticks(s, n).otp == s.otp && Ticks(s, n).focus == s.focus
    decreases n
  {
    if n > 0 {
      CooldownCountsDown(Tick(s), n - 1);
    }
  }

  /** A freshly issued code can be re-requested after thirty seconds and not before. */
  lemma ResendWaitsThirtySeconds(n: nat)
    ensures Ticks(Initial(), n).canResend <==> n >= Cooldown
  {
    CooldownCountsDown(Initial(), n);
  }

  /**
   * The resend button: when enabled it restarts the cooldown and asks for a new code
   * (`sent`); when disabled it does nothing. The slots are kept either way.
   */
  function Resend(s: OtpState): (r: (OtpState, bool))
    requires Valid(s)
    ensures Valid(r.0)
    ensures r.1 <==> s.canResend
    ensures r.0.otp == s.otp && r.0.focus == s.focus
    ensures r.1 ==> r.0.timer == Cooldown && !r.0.canResend
    ensures !r.1 ==> r.0 == s
  {
    if s.canResend then (s.(timer := Cooldown, canResend := false), true) else (s, false)
  }

  /** After a resend the next request again waits the full thirty seconds. */
  lemma ResendRestartsCooldown(s: OtpState, n: nat)
    requires Valid(s) && s.canResend
    ensures Ticks(Resend(s).0, n).canResend <==> n >= Cooldown
  {
    CooldownCountsDown(Resend(s).0, n);
  }

  /** The widget after typing the characters of `typed` into slots `0`, `1`, ... in turn, one per slot. */
  function TypeCode(typed: string): (s: OtpState)
    requires |typed| <= Slots
    ensures Valid(s)
  {
    if typed == [] then Initial()
    else ChangeSlot(TypeCode(typed[..|typed| - 1]), [typed[|typed| - 1]], |typed| - 1)
  }

  /** Typing one digit into slot `i` stores it there and moves the cursor on, unless `i` is the last slot. */
  lemma TypeOneDigit(s: OtpState, c: char, i: nat)
    requires Valid(s) && i < Slots && IsAsciiDigit(c)
    ensures ChangeSlot(s, [c], i).otp == s.otp[i := [c]]
    ensures ChangeSlot(s, [c], i).focus == if i < Slots - 1 then Some(i + 1) else s.focus
  {
    NumericCharAgreesWithText(c);
  }

  /** The slots after typing `typed` one per slot: its characters first, then empty slots. */
  predicate HoldsTyped(s: OtpState, typed: string)
    requires |s.otp| == Slots && |typed| <= Slots
  {
    && (forall j | 0 <= j < Slots :: s.otp[j] == if j < |typed| then [typed[j]] else "")
    && s.focus == if typed == [] then None else Some(if |typed| < Slots then |typed| else Slots - 1)
  }

  /** Typing the next digit of `typed` extends what the slots hold by that digit. */
  lemma TypeNextDigit(prev: OtpState, typed: string)
    requires Valid(prev) && 0 < |typed| <= Slots
    requires IsAsciiDigit(typed[|typed| - 1])
    requires HoldsTyped(prev, typed[..|typed| - 1])
    ensures HoldsTyped(ChangeSlot(prev, [typed[|typed| - 1]], |typed| - 1), typed)
  {
    var n := |typed|;
    var c := typed[n - 1];
    TypeOneDigit(prev, c, n - 1);
    var now := ChangeSlot(prev, [c], n - 1);
    forall j | 0 <= j < Slots ensures now.otp[j] == if j < n then [typed[j]] else "" {
      if j < n - 1 {
        assert now.otp[j] == prev.otp[j] == [typed[..n - 1][j]];
      }
    }
  }

  /** Each typed digit lands in its own slot and the cursor follows, stopping on the last slot. */
  lemma {:induction false} TypeCodeContents(typed: string)
    requires |typed| <= Slots
    requires forall k | 0 <= k < |typed| :: IsAsciiDigit(typed[k])
    ensures HoldsTyped(TypeCode(typed), typed)
  {
    if typed != [] {
      var front := typed[..|typed| - 1];
      TypeCodeContents(front);
      TypeNextDigit(TypeCode(front), typed);
    }
  }

  /** Typing six digits into the six slots in turn completes exactly that code, with the cursor on the last slot. */
  lemma SequentialEntrySubmitsCode(code: string)
    requires |code| == Slots
    requires forall k | 0 <= k < |code| :: IsAsciiDigit(code[k])
    ensures Submit(TypeCode(code), false) == Some(code)
    ensures TypeCode(code).focus == Some(Slots - 1)
  {
    var s := TypeCode(code);
    TypeCodeContents(code);
    SubmitFiresIffComplete(s, false);
    var got := Submit(s, false).value;
    assert forall j | 0 <= j < Slots :: got[j] == code[j];
    assert got == code;
  }

  /** White space counts as numeric: pasting `12 456` completes the code with a space in the third slot. */
  lemma SpacePassesAsDigitExample()
    ensures Submit(Paste(Initial(), "12 456"), false) == Some("12 456")
  {
    var text := "12 456";
    assert forall k | 0 <= k < |text| :: IsNumericChar(text[k]);
    PasteEffect(Initial(), text);
    var s := Paste(Initial(), text);
    SubmitFiresIffComplete(s, false);
    var code := Submit(s, false).value;
    assert forall j | 0 <= j < Slots :: code[j] == text[j];
    assert code == text;
  }
}
