/** `normalizePhone` of src/shared/utils/phone.util.ts, the key function of the OTP records. */
module PhoneUtil {
  import opened Common

  predicate IsDigit(c: char) {
    '0' <= c <= '9'
  }

  /** `replace(/[^\d+]/g, '')` */
  function Cleaned(s: string): string {
    if s == "" then "" else (if IsDigit(s[0]) || s[0] == '+' then [s[0]] else "") + Cleaned(s[1..])
  }

  function NormalizePhone(phone: string): Option<string> {
    var cleaned := Cleaned(phone);
    if cleaned == "" then None
    else if cleaned[0] == '+' then Some(cleaned)
    else if cleaned[0] == '0' then None
    else if |cleaned| >= 2 && IsDigit(cleaned[1]) then Some("+" + cleaned)
    else None
  }

  lemma {:induction false} CleanedOnce(s: string)
    ensures Cleaned(Cleaned(s)) == Cleaned(s)
    ensures forall i :: 0 <= i < |Cleaned(s)| ==> IsDigit(Cleaned(s)[i]) || Cleaned(s)[i] == '+'
  {
    if s != "" {
      CleanedOnce(s[1..]);
      if IsDigit(s[0]) || s[0] == '+' {
        assert Cleaned(s) == [s[0]] + Cleaned(s[1..]);
        assert Cleaned(s)[1..] == Cleaned(s[1..]);
      } else {
        assert Cleaned(s) == Cleaned(s[1..]);
      }
    }
  }

  /** A stored phone is its own key: looking a normalised number up again finds the same record. */
  lemma NormalizeIsIdempotent(phone: string)
    ensures var n := NormalizePhone(phone);
            n.Some? ==> n.value[0..1] == "+" && NormalizePhone(n.value) == n
  {
    CleanedOnce(phone);
    var c := Cleaned(phone);
    assert ("+" + c)[1..] == c;
    assert Cleaned("+" + c) == "+" + Cleaned(c);
  }

  /** The digits of a string, in order. */
  function Digits(s: string): string {
    if s == "" then "" else (if '0' <= s[0] <= '9' then [s[0]] else "") + Digits(s[1..])
  }

  lemma {:induction false} CleanedHasTheDigits(s: string)
    ensures Digits(Cleaned(s)) == Digits(s)
  {
    if s != "" {
      CleanedHasTheDigits(s[1..]);
      if IsDigit(s[0]) || s[0] == '+' {
        assert Cleaned(s)[1..] == Cleaned(s[1..]);
      } else {
        assert Cleaned(s) == Cleaned(s[1..]);
      }
    }
  }

  /** The first character that is a digit or a plus, and what follows. */
  function FromFirst(s: string): string {
    if s == "" || '0' <= s[0] <= '9' || s[0] == '+' then s else FromFirst(s[1..])
  }

  lemma {:induction false} FirstOfCleaned(s: string)
    ensures var f, c := FromFirst(s), Cleaned(s);
            c == Cleaned(f) && (f == "" <==> c == "") && (f != "" ==> c[0] == f[0] && c[1..] == Cleaned(f[1..]))
  {
    if s != "" {
      FirstOfCleaned(s[1..]);
    }
  }

  /** A number is accepted exactly if, other characters aside, it begins with a plus, or with a digit other than zero
      followed by another digit. The result is a plus and the digits of the number (between which only further
      pluses of the number can stand). */
  lemma NormalizeIs(phone: string)
    ensures var f, n := FromFirst(phone), NormalizePhone(phone);
            (n.Some? <==>
               f != "" && (f[0] == '+' || ('1' <= f[0] <= '9'
                                           && FromFirst(f[1..]) != "" && FromFirst(f[1..])[0] != '+')))
            && (n.Some? ==> n.value != "" && n.value[0] == '+' && Digits(n.value) == Digits(phone)
                            && forall i :: 0 <= i < |n.value| ==> '0' <= n.value[i] <= '9' || n.value[i] == '+')
  {
    FirstOfCleaned(phone);
    var f, c := FromFirst(phone), Cleaned(phone);
    CleanedHasTheDigits(phone);
    CleanedOnce(phone);
    FirstIsRight(phone);
    if f != "" {
      FirstOfCleaned(f[1..]);
      FirstIsRight(f[1..]);
      assert c[1..] == Cleaned(f[1..]);
      assert |c| >= 2 ==> c[1..][0] == c[1];
    }
    assert ("+" + c)[1..] == c;
  }

  lemma {:induction false} FirstIsRight(s: string)
    ensures var f := FromFirst(s); f != "" ==> '0' <= f[0] <= '9' || f[0] == '+'
  {
    if s != "" {
      FirstIsRight(s[1..]);
    }
  }

  lemma {:induction false} CleanStays(s: string)
    requires forall i :: 0 <= i < |s| ==> IsDigit(s[i]) || s[i] == '+'
    ensures Cleaned(s) == s
  {
    if s != "" {
      CleanStays(s[1..]);
    }
  }

  /** The examples of the documentation. */
  lemma DocumentedNumbers()
    ensures NormalizePhone("+84123456789") == Some("+84123456789")
    ensures NormalizePhone("84123456789") == Some("+84123456789")
    ensures NormalizePhone("1234567890") == Some("+1234567890")
    ensures NormalizePhone("0123456789") == None
  {
    hide Cleaned;
    CleanStays("+84123456789");
    CleanStays("84123456789");
    CleanStays("1234567890");
    CleanStays("0123456789");
    assert "+" + "84123456789" == "+84123456789" && "+" + "1234567890" == "+1234567890";
  }
}
