/**
  The CPF and phone input masks of the login screen and the length checks of its two forms.

  Each mask strips the non-digits and then applies a chain of `String.replace` calls with a
  non-global regular expression, which rewrites the leftmost match only. The functions below
  state those leftmost matches directly; the lemmas then give each mask's output in closed
  form, by the number of digits typed.
*/
module LoginView {
  import opened Wrappers
  import opened Text

  function Min(a: int, b: int): int
  {
    if a <= b then a else b
  }

  /** s[i .. i + len] is made of digits. */
  predicate DigitsAt(s: string, i: nat, len: nat)
    requires i + len <= |s|
  {
    forall j :: i <= j < i + len ==> IsDigit(s[j])
  }

  /** Leftmost position at or after `from` where `len` digits in a row start. */
  function FindRun(s: string, len: nat, from: nat): (r: Option<nat>)
    requires from <= |s|
    ensures r.Some? ==> from <= r.value && r.value + len <= |s| && DigitsAt(s, r.value, len)
                        && forall i :: from <= i < r.value ==> !DigitsAt(s, i, len)
    ensures r.None? ==> forall i :: from <= i && i + len <= |s| ==> !DigitsAt(s, i, len)
    decreases |s| - from
  {
    if from + len > |s| then None
    else if DigitsAt(s, from, len) then Some(from)
    else FindRun(s, len, from + 1)
  }

  /** How many digits, at most `max`, follow position `from`: a greedy `\d{1,max}`. */
  function GreedyDigits(s: string, from: nat, max: nat): (g: nat)
    requires from <= |s|
    ensures g <= max && from + g <= |s| && DigitsAt(s, from, g)
    ensures g < max && from + g < |s| ==> !IsDigit(s[from + g])
    decreases max
  {
    if max == 0 || from == |s| || !IsDigit(s[from]) then 0
    else 1 + GreedyDigits(s, from + 1, max - 1)
  }

  /** `s.replace(/(\d{k})(\d)/, before + '$1' + middle + '$2')`. */
  function ReplaceRun(s: string, k: nat, before: string, middle: string): string
  {
    match FindRun(s, k + 1, 0)
    case None => s
    case Some(i) => s[..i] + before + s[i..i + k] + middle + s[i + k..]
  }

  /** `s.replace(/(\d{k})(\d{1,max})/, '$1' + middle + '$2')`. */
  function ReplaceRunGreedy(s: string, k: nat, max: nat, middle: string): string
    requires max >= 1
  {
    match FindRun(s, k + 1, 0)
    case None => s
    case Some(i) =>
      var g := GreedyDigits(s, i + k, max);
      s[..i] + s[i..i + k] + middle + s[i + k..i + k + g] + s[i + k + g..]
  }

  /** How far `\d{1,max}` reaches does not change the result: the match is put back in place. */
  lemma GreedyIsInsertion(s: string, k: nat, max: nat, middle: string)
    requires max >= 1
    ensures ReplaceRunGreedy(s, k, max, middle) == ReplaceRun(s, k, "", middle)
  {
    match FindRun(s, k + 1, 0)
    case None =>
    case Some(i) =>
      var g := GreedyDigits(s, i + k, max);
      assert s[i + k..i + k + g] + s[i + k + g..] == s[i + k..];
      assert s[..i] + [] == s[..i];
  }

  /** The regular expression `(-\d{k})\d+?$` matches at position i. */
  predicate TailAt(s: string, i: nat, k: nat)
  {
    i + k + 1 < |s| && s[i] == '-' && forall j :: i < j < |s| ==> IsDigit(s[j])
  }

  /** Leftmost position at or after `from` where `(-\d{k})\d+?$` matches. */
  function FindTail(s: string, k: nat, from: nat): (r: Option<nat>)
    ensures r.Some? ==> from <= r.value && TailAt(s, r.value, k)
                        && forall i :: from <= i < r.value ==> !TailAt(s, i, k)
    ensures r.None? ==> forall i :: from <= i ==> !TailAt(s, i, k)
    decreases |s| - from
  {
    if from >= |s| then None
    else if TailAt(s, from, k) then Some(from)
    else FindTail(s, k, from + 1)
  }

  /** `s.replace(/(-\d{k})\d+?$/, '$1')`: cuts a digit tail after a hyphen down to k digits. */
  function TrimTail(s: string, k: nat): string
  {
    match FindTail(s, k, 0)
    case None => s
    case Some(i) => s[..i + 1 + k]
  }

  /** `maskCPF`. */
  function MaskCPF(value: string): string
  {
    var d := Digits(value);
    var s1 := ReplaceRun(d, 3, "", ".");
    var s2 := ReplaceRun(s1, 3, "", ".");
    var s3 := ReplaceRunGreedy(s2, 3, 2, "-");
    TrimTail(s3, 2)
  }

  /** `maskPhone`. */
  function MaskPhone(value: string): string
  {
    var d := Digits(value);
    var s1 := ReplaceRun(d, 2, "(", ") ");
    var s2 := ReplaceRun(s1, 5, "", "-");
    TrimTail(s2, 4)
  }

  /** ddd.ddd.ddd-dd filled in as far as the digits go, at most 11 of them. */
  function CpfLayout(d: string): string
  {
    var n := |d|;
    if n <= 3 then d
    else if n <= 6 then d[..3] + "." + d[3..]
    else if n <= 9 then d[..3] + "." + d[3..6] + "." + d[6..]
    else d[..3] + "." + d[3..6] + "." + d[6..9] + "-" + d[9..Min(n, 11)]
  }

  /** (dd) ddddd-dddd filled in as far as the digits go, at most 11 of them. */
  function PhoneLayout(d: string): string
  {
    var n := |d|;
    if n <= 2 then d
    else if n <= 7 then "(" + d[..2] + ") " + d[2..]
    else "(" + d[..2] + ") " + d[2..7] + "-" + d[7..Min(n, 11)]
  }

  // Leftmost-match bookkeeping.

  lemma FindRunAt(s: string, len: nat, i: nat)
    requires i + len <= |s| && DigitsAt(s, i, len)
    requires forall j :: 0 <= j < i ==> !DigitsAt(s, j, len)
    ensures FindRun(s, len, 0) == Some(i)
  {
  }

  lemma FindRunNone(s: string, len: nat)
    requires forall j :: 0 <= j && j + len <= |s| ==> !DigitsAt(s, j, len)
    ensures FindRun(s, len, 0) == None
  {
  }

  /** A non-digit at p spoils every window of `len` characters that covers p. */
  lemma Blocked(s: string, len: nat, p: nat)
    requires p < |s| && !IsDigit(s[p])
    ensures forall j: nat :: j <= p < j + len && j + len <= |s| ==> !DigitsAt(s, j, len)
  {
  }

  lemma FindTailAt(s: string, k: nat, i: nat)
    requires TailAt(s, i, k)
    requires forall j :: 0 <= j < i ==> !TailAt(s, j, k)
    ensures FindTail(s, k, 0) == Some(i)
  {
  }

  /** Without a hyphen at position i, or with one followed by too few digits, no tail matches. */
  lemma FindTailNone(s: string, k: nat)
    requires forall j :: 0 <= j < |s| ==> s[j] != '-' || j + k + 1 >= |s|
    ensures FindTail(s, k, 0) == None
  {
  }

  // The CPF mask, step by step.

  lemma CpfFirstDot(d: string)
    requires AllDigits(d)
    ensures ReplaceRun(d, 3, "", ".") == if |d| <= 3 then d else d[..3] + "." + d[3..]
  {
    if |d| >= 4 {
      FindRunAt(d, 4, 0);
    } else {
      FindRunNone(d, 4);
    }
  }

  lemma CpfSecondDot(d: string)
    requires AllDigits(d) && |d| >= 4
    ensures var s1 := d[..3] + "." + d[3..];
            ReplaceRun(s1, 3, "", ".") == if |d| <= 6 then s1 else d[..3] + "." + d[3..6] + "." + d[6..]
  {
    var s1 := d[..3] + "." + d[3..];
    Blocked(s1, 4, 3);
    if |d| >= 7 {
      assert DigitsAt(s1, 4, 4);
      FindRunAt(s1, 4, 4);
      assert s1[..4] + "" + s1[4..7] + "." + s1[7..] == d[..3] + "." + d[3..6] + "." + d[6..];
    } else {
      FindRunNone(s1, 4);
    }
  }

  lemma CpfHyphen(d: string)
    requires AllDigits(d) && |d| >= 4
    ensures var s2 := if |d| <= 6 then d[..3] + "." + d[3..] else d[..3] + "." + d[3..6] + "." + d[6..];
            ReplaceRunGreedy(s2, 3, 2, "-") ==
              if |d| <= 9 then s2 else d[..3] + "." + d[3..6] + "." + d[6..9] + "-" + d[9..]
  {
    var s2 := if |d| <= 6 then d[..3] + "." + d[3..] else d[..3] + "." + d[3..6] + "." + d[6..];
    GreedyIsInsertion(s2, 3, 2, "-");
    Blocked(s2, 4, 3);
    if |d| <= 6 {
      FindRunNone(s2, 4);
    } else {
      Blocked(s2, 4, 7);
      if |d| >= 10 {
        assert DigitsAt(s2, 8, 4);
        FindRunAt(s2, 4, 8);
        assert s2[..8] + "" + s2[8..11] + "-" + s2[11..] == d[..3] + "." + d[3..6] + "." + d[6..9] + "-" + d[9..];
      } else {
        FindRunNone(s2, 4);
      }
    }
  }

  lemma CpfTrim(d: string)
    requires AllDigits(d)
    ensures var s3 := if |d| <= 3 then d
                      else if |d| <= 6 then d[..3] + "." + d[3..]
                      else if |d| <= 9 then d[..3] + "." + d[3..6] + "." + d[6..]
                      else d[..3] + "." + d[3..6] + "." + d[6..9] + "-" + d[9..];
            TrimTail(s3, 2) == CpfLayout(d)
  {
    var s3 := if |d| <= 3 then d
              else if |d| <= 6 then d[..3] + "." + d[3..]
              else if |d| <= 9 then d[..3] + "." + d[3..6] + "." + d[6..]
              else d[..3] + "." + d[3..6] + "." + d[6..9] + "-" + d[9..];
    if |d| >= 12 {
      assert TailAt(s3, 11, 2);
      forall j | 0 <= j < 11 ensures !TailAt(s3, j, 2) {
        assert s3[j] != '-';
      }
      FindTailAt(s3, 2, 11);
      assert s3[..14] == d[..3] + "." + d[3..6] + "." + d[6..9] + "-" + d[9..11];
    } else {
      forall j | 0 <= j < |s3| ensures s3[j] != '-' || j + 3 >= |s3| {
      }
      FindTailNone(s3, 2);
    }
  }

  /**
    `maskCPF` in closed form: a '.' after the third digit once there are four, a '.' after the
    sixth once there are seven, a '-' after the ninth once there are ten, and nothing past the
    eleventh digit.
  */
  lemma MaskCPFLayout(value: string)
    ensures MaskCPF(value) == CpfLayout(Digits(value))
  {
    var d := Digits(value);
    CpfFirstDot(d);
    if |d| >= 4 {
      CpfSecondDot(d);
      CpfHyphen(d);
    } else {
      FindRunNone(d, 4);
    }
    CpfTrim(d);
  }

  /** The CPF field is at most 14 characters, and exactly 14 (ddd.ddd.ddd-dd) iff 11 digits were typed. */
  lemma MaskCPFLength(value: string)
    ensures |MaskCPF(value)| <= 14
    ensures |MaskCPF(value)| == 14 <==> |Digits(value)| >= 11
    ensures |Digits(value)| >= 11 ==>
              var d := Digits(value);
              MaskCPF(value) == d[..3] + "." + d[3..6] + "." + d[6..9] + "-" + d[9..11]
  {
    MaskCPFLayout(value);
  }

  /** Filtering digits out of a string with separators between digit runs keeps the runs. */
  lemma DigitsJoin(x: string, sep: string, y: string)
    requires forall i :: 0 <= i < |sep| ==> !IsDigit(sep[i])
    requires AllDigits(y)
    ensures Digits(x + sep + y) == Digits(x) + y
  {
    DigitsDropSeparators(x, sep);
    DigitsAppendDigits(x + sep, y);
  }

  lemma DigitsDropSeparators(x: string, sep: string)
    requires forall i :: 0 <= i < |sep| ==> !IsDigit(sep[i])
    ensures Digits(x + sep) == Digits(x)
  {
    DigitsAppend(x, sep);
    DigitsOfSeparators(sep);
  }

  lemma DigitsAppendDigits(x: string, y: string)
    requires AllDigits(y)
    ensures Digits(x + y) == Digits(x) + y
  {
    DigitsAppend(x, y);
    DigitsOfDigits(y);
  }

  /** The separators of the CPF layout drop out again. */
  lemma CpfLayoutDigits(d: string)
    requires AllDigits(d)
    ensures Digits(CpfLayout(d)) == d[..Min(|d|, 11)]
  {
    var n := |d|;
    if n <= 3 {
      DigitsOfDigits(d);
    } else {
      DigitsOfDigits(d[..3]);
      if n <= 6 {
        DigitsJoin(d[..3], ".", d[3..]);
      } else {
        DigitsJoin(d[..3], ".", d[3..6]);
        if n <= 9 {
          DigitsJoin(d[..3] + "." + d[3..6], ".", d[6..]);
        } else {
          DigitsJoin(d[..3] + "." + d[3..6], ".", d[6..9]);
          DigitsJoin(d[..3] + "." + d[3..6] + "." + d[6..9], "-", d[9..Min(n, 11)]);
          assert d[..Min(n, 11)] == d[..3] + d[3..6] + d[6..9] + d[9..Min(n, 11)];
        }
      }
    }
  }

  /** Dropping the separators of a masked CPF gives back the first 11 digits typed. */
  lemma MaskCPFDigits(value: string)
    ensures Digits(MaskCPF(value)) == Digits(value)[..Min(|Digits(value)|, 11)]
  {
    MaskCPFLayout(value);
    CpfLayoutDigits(Digits(value));
  }

  predicate CpfChar(c: char)
  {
    IsDigit(c) || c == '.' || c == '-'
  }

  /** Concatenation keeps a character class. */
  lemma CpfCharsJoin(a: string, b: string)
    requires forall i :: 0 <= i < |a| ==> CpfChar(a[i])
    requires forall i :: 0 <= i < |b| ==> CpfChar(b[i])
    ensures forall i :: 0 <= i < |a + b| ==> CpfChar((a + b)[i])
  {
  }

  lemma CpfLayoutAlphabet(d: string)
    requires AllDigits(d)
    ensures forall i :: 0 <= i < |CpfLayout(d)| ==> CpfChar(CpfLayout(d)[i])
  {
    var n := |d|;
    if n > 3 {
      CpfCharsJoin(d[..3], ".");
      if n <= 6 {
        CpfCharsJoin(d[..3] + ".", d[3..]);
      } else {
        CpfCharsJoin(d[..3] + ".", d[3..6]);
        CpfCharsJoin(d[..3] + "." + d[3..6], ".");
        if n <= 9 {
          CpfCharsJoin(d[..3] + "." + d[3..6] + ".", d[6..]);
        } else {
          CpfCharsJoin(d[..3] + "." + d[3..6] + ".", d[6..9]);
          CpfCharsJoin(d[..3] + "." + d[3..6] + "." + d[6..9], "-");
          CpfCharsJoin(d[..3] + "." + d[3..6] + "." + d[6..9] + "-", d[9..Min(n, 11)]);
        }
      }
    }
  }

  /** A masked CPF holds only digits, '.' and '-'. */
  lemma MaskCPFAlphabet(value: string)
    ensures forall i :: 0 <= i < |MaskCPF(value)| ==> CpfChar(MaskCPF(value)[i])
  {
    MaskCPFLayout(value);
    CpfLayoutAlphabet(Digits(value));
  }

  /** The layout only looks at the first 11 digits. */
  lemma CpfLayoutCut(d: string)
    ensures CpfLayout(d[..Min(|d|, 11)]) == CpfLayout(d)
  {
    if |d| > 11 {
      var d2 := d[..11];
      assert d2[..3] == d[..3] && d2[3..6] == d[3..6] && d2[6..9] == d[6..9] && d2[9..11] == d[9..11];
    } else {
      assert d[..Min(|d|, 11)] == d;
    }
  }

  /** Masking a masked CPF changes nothing. */
  lemma MaskCPFIdempotent(value: string)
    ensures MaskCPF(MaskCPF(value)) == MaskCPF(value)
  {
    MaskCPFDigits(value);
    MaskCPFLayout(value);
    MaskCPFLayout(MaskCPF(value));
    CpfLayoutCut(Digits(value));
  }

  // The phone mask, step by step.

  lemma PhoneParens(d: string)
    requires AllDigits(d)
    ensures ReplaceRun(d, 2, "(", ") ") == if |d| <= 2 then d else "(" + d[..2] + ") " + d[2..]
  {
    if |d| >= 3 {
      FindRunAt(d, 3, 0);
    } else {
      FindRunNone(d, 3);
    }
  }

  lemma PhoneHyphen(d: string)
    requires AllDigits(d)
    ensures var s1 := if |d| <= 2 then d else "(" + d[..2] + ") " + d[2..];
            ReplaceRun(s1, 5, "", "-") ==
              if |d| <= 7 then s1 else "(" + d[..2] + ") " + d[2..7] + "-" + d[7..]
  {
    var s1 := if |d| <= 2 then d else "(" + d[..2] + ") " + d[2..];
    if |d| <= 2 {
      FindRunNone(s1, 6);
    } else {
      Blocked(s1, 6, 4);
      if |d| >= 8 {
        assert DigitsAt(s1, 5, 6);
        FindRunAt(s1, 6, 5);
        assert s1[..5] + "" + s1[5..10] + "-" + s1[10..] == "(" + d[..2] + ") " + d[2..7] + "-" + d[7..];
      } else {
        FindRunNone(s1, 6);
      }
    }
  }

  lemma PhoneTrim(d: string)
    requires AllDigits(d)
    ensures var s2 := if |d| <= 2 then d
                      else if |d| <= 7 then "(" + d[..2] + ") " + d[2..]
                      else "(" + d[..2] + ") " + d[2..7] + "-" + d[7..];
            TrimTail(s2, 4) == PhoneLayout(d)
  {
    var s2 := if |d| <= 2 then d
              else if |d| <= 7 then "(" + d[..2] + ") " + d[2..]
              else "(" + d[..2] + ") " + d[2..7] + "-" + d[7..];
    if |d| >= 12 {
      assert TailAt(s2, 10, 4);
      forall j | 0 <= j < 10 ensures !TailAt(s2, j, 4) {
        assert s2[j] != '-';
      }
      FindTailAt(s2, 4, 10);
      assert s2[..15] == "(" + d[..2] + ") " + d[2..7] + "-" + d[7..11];
    } else {
      forall j | 0 <= j < |s2| ensures s2[j] != '-' || j + 5 >= |s2| {
      }
      FindTailNone(s2, 4);
    }
  }

  /**
    `maskPhone` in closed form: "(dd) " once there are three digits, a '-' after the seventh
    digit once there are eight, and nothing past the eleventh digit.
  */
  lemma MaskPhoneLayout(value: string)
    ensures MaskPhone(value) == PhoneLayout(Digits(value))
  {
    var d := Digits(value);
    PhoneParens(d);
    PhoneHyphen(d);
    PhoneTrim(d);
  }

  /** The phone field is at most 15 characters, and exactly 15 ((dd) ddddd-dddd) iff 11 digits were typed. */
  lemma MaskPhoneLength(value: string)
    ensures |MaskPhone(value)| <= 15
    ensures |MaskPhone(value)| == 15 <==> |Digits(value)| >= 11
    ensures |Digits(value)| >= 11 ==>
              var d := Digits(value);
              MaskPhone(value) == "(" + d[..2] + ") " + d[2..7] + "-" + d[7..11]
  {
    MaskPhoneLayout(value);
  }

  /** The separators of the phone layout drop out again. */
  lemma PhoneLayoutDigits(d: string)
    requires AllDigits(d)
    ensures Digits(PhoneLayout(d)) == d[..Min(|d|, 11)]
  {
    var n := |d|;
    if n <= 2 {
      DigitsOfDigits(d);
    } else {
      DigitsOfSeparators("(");
      assert "(" == [] + "(" + [];
      DigitsJoin([], "(", d[..2]);
      if n <= 7 {
        DigitsJoin("(" + d[..2], ") ", d[2..]);
      } else {
        DigitsJoin("(" + d[..2], ") ", d[2..7]);
        DigitsJoin("(" + d[..2] + ") " + d[2..7], "-", d[7..Min(n, 11)]);
        assert d[..Min(n, 11)] == d[..2] + d[2..7] + d[7..Min(n, 11)];
      }
    }
  }

  /** The digits of a masked phone number are the first 11 digits typed. */
  lemma MaskPhoneDigits(value: string)
    ensures Digits(MaskPhone(value)) == Digits(value)[..Min(|Digits(value)|, 11)]
  {
    MaskPhoneLayout(value);
    PhoneLayoutDigits(Digits(value));
  }

  /** The layout only looks at the first 11 digits. */
  lemma PhoneLayoutCut(d: string)
    ensures PhoneLayout(d[..Min(|d|, 11)]) == PhoneLayout(d)
  {
    if |d| > 11 {
      var d2 := d[..11];
      assert d2[..2] == d[..2] && d2[2..7] == d[2..7] && d2[7..11] == d[7..11];
    } else {
      assert d[..Min(|d|, 11)] == d;
    }
  }

  /** Masking a masked phone number changes nothing. */
  lemma MaskPhoneIdempotent(value: string)
    ensures MaskPhone(MaskPhone(value)) == MaskPhone(value)
  {
    MaskPhoneDigits(value);
    MaskPhoneLayout(value);
    MaskPhoneLayout(MaskPhone(value));
    PhoneLayoutCut(Digits(value));
  }

  // The two forms.

  /** Which modal form is open. */
  datatype Modal = NoModal | ForgotModal | RegisterModal

  /** The state the two modal forms read and write. */
  datatype ModalForm = ModalForm(modal: Modal, modalCpf: string, modalPhone: string)

  /** The outcome of submitting a form: whether it went through, and the form afterwards. */
  datatype Submission = Submission(accepted: bool, form: ModalForm)

  /** `handleForgot`: a CPF shorter than 14 characters is refused; otherwise the modal closes and the CPF is cleared. */
  function HandleForgot(f: ModalForm): (r: Submission)
    ensures r.accepted <==> |f.modalCpf| >= 14
    ensures r.accepted ==> r.form == ModalForm(NoModal, "", f.modalPhone)
    ensures !r.accepted ==> r.form == f
  {
    if |f.modalCpf| < 14 then Submission(false, f)
    else Submission(true, f.(modal := NoModal, modalCpf := ""))
  }

  /** `handleRegister`: both a 14-character CPF and a 15-character phone are needed; then both are cleared. */
  function HandleRegister(f: ModalForm): (r: Submission)
    ensures r.accepted <==> |f.modalCpf| >= 14 && |f.modalPhone| >= 15
    ensures r.accepted ==> r.form == ModalForm(NoModal, "", "")
    ensures !r.accepted ==> r.form == f
  {
    if |f.modalCpf| < 14 || |f.modalPhone| < 15 then Submission(false, f)
    else Submission(true, ModalForm(NoModal, "", ""))
  }

  /** The fields only ever hold mask output, so the length checks mean "11 digits were typed". */
  lemma ForgotNeedsElevenDigits(modal: Modal, cpfTyped: string, phone: string)
    ensures HandleForgot(ModalForm(modal, MaskCPF(cpfTyped), phone)).accepted <==> |Digits(cpfTyped)| >= 11
  {
    MaskCPFLength(cpfTyped);
  }

  lemma RegisterNeedsElevenDigitsEach(modal: Modal, cpfTyped: string, phoneTyped: string)
    ensures HandleRegister(ModalForm(modal, MaskCPF(cpfTyped), MaskPhone(phoneTyped))).accepted
            <==> |Digits(cpfTyped)| >= 11 && |Digits(phoneTyped)| >= 11
  {
    MaskCPFLength(cpfTyped);
    MaskPhoneLength(phoneTyped);
  }
}
