/** MAC normalisation of server/internal/unifi/names.go, on ASCII text. */
module MacText {
  import opened Text

  predicate IsHex(c: char) {
    IsDigit(c) || 'A' <= c <= 'F'
  }

  lemma {:induction false} HexDigitsAre(c: char)
    ensures IsHex(c) <==> c in "0123456789ABCDEF"
  {
    var digits := "0123456789ABCDEF";
    if IsHex(c) {
      assert digits[if IsDigit(c) then c as int - '0' as int else c as int - 'A' as int + 10] == c;
    }
  }

  /** The hex digits of the upper-cased text. */
  function HexOnly(s: string): string {
    if s == "" then ""
    else if IsHex(UpperChar(s[0])) then [UpperChar(s[0])] + HexOnly(s[1..])
    else HexOnly(s[1..])
  }

  /** Pairs of digits joined by colons. */
  function Colons(hex: string): string {
    if |hex| <= 2 then hex else hex[..2] + ":" + Colons(hex[2..])
  }

  function NormalizeMac(s: string): string {
    var hex := HexOnly(s);
    if |hex| != 12 then ToUpper(Trim(s)) else Colons(hex)
  }

  function DropColons(s: string): string {
    if s == "" then "" else if s[0] == ':' then DropColons(s[1..]) else [s[0]] + DropColons(s[1..])
  }

  /** The key under which every table is indexed. */
  function MacKey(s: string): string {
    DropColons(NormalizeMac(s))
  }

  lemma {:induction false} HexOnlyConcat(a: string, b: string)
    ensures HexOnly(a + b) == HexOnly(a) + HexOnly(b)
  {
    if a == "" {
      assert a + b == b;
    } else {
      HexOnlyConcat(a[1..], b);
      assert (a + b)[0] == a[0] && (a + b)[1..] == a[1..] + b;
    }
  }

  lemma {:induction false} HexOnlyIsHex(s: string)
    ensures forall i :: 0 <= i < |HexOnly(s)| ==> IsHex(HexOnly(s)[i])
  {
    if s != "" {
      HexOnlyIsHex(s[1..]);
    }
  }

  lemma {:induction false} HexOnlyKeepsHex(s: string)
    requires forall i :: 0 <= i < |s| ==> IsHex(s[i])
    ensures HexOnly(s) == s
  {
    if s != "" {
      HexOnlyKeepsHex(s[1..]);
      assert UpperChar(s[0]) == s[0];
    }
  }

  lemma {:induction false} HexOnlyOfColons(hex: string)
    requires forall i :: 0 <= i < |hex| ==> IsHex(hex[i])
    ensures HexOnly(Colons(hex)) == hex
  {
    HexOnlyKeepsHex(hex);
    if |hex| > 2 {
      HexOnlyOfColons(hex[2..]);
      HexOnlyKeepsHex(hex[..2]);
      HexOnlyConcat(hex[..2], ":" + Colons(hex[2..]));
      assert (":" + Colons(hex[2..]))[1..] == Colons(hex[2..]);
      assert hex[..2] + ":" + Colons(hex[2..]) == hex[..2] + (":" + Colons(hex[2..]));
    }
  }

  lemma {:induction false} HexOnlyOfUpper(s: string)
    ensures HexOnly(ToUpper(s)) == HexOnly(s)
  {
    if s != "" {
      HexOnlyOfUpper(s[1..]);
      assert ToUpper(s)[1..] == ToUpper(s[1..]);
    }
  }

  lemma {:induction false} HexOnlyOfTrimLeft(s: string)
    ensures HexOnly(TrimLeft(s)) == HexOnly(s)
  {
    if s != "" && IsSpace(s[0]) {
      HexOnlyOfTrimLeft(s[1..]);
    }
  }

  lemma {:induction false} HexOnlyOfTrimRight(s: string)
    ensures HexOnly(TrimRight(s)) == HexOnly(s)
  {
    if s != "" && IsSpace(s[|s| - 1]) {
      var init, last := s[..|s| - 1], s[|s| - 1..];
      HexOnlyOfTrimRight(init);
      HexOnlyConcat(init, last);
      assert s == init + last;
      assert last[0] == s[|s| - 1] && last[1..] == "";
      assert HexOnly(last) == "";
    }
  }

  /** Normalising twice is normalising once, for canonical and for odd input alike. */
  lemma {:induction false} NormalizeTwice(s: string)
    ensures NormalizeMac(NormalizeMac(s)) == NormalizeMac(s)
  {
    var hex := HexOnly(s);
    if |hex| == 12 {
      HexOnlyIsHex(s);
      HexOnlyOfColons(hex);
    } else {
      var t := Trim(s);
      HexOnlyOfTrimLeft(s);
      HexOnlyOfTrimRight(TrimLeft(s));
      HexOnlyOfUpper(t);
      TrimIsTrimmed(s);
      assert Trimmed(ToUpper(t));
      TrimIsTrimmed(ToUpper(t));
      assert ToUpper(ToUpper(t)) == ToUpper(t);
    }
  }

  lemma {:induction false} KeyOfNormalized(s: string)
    ensures MacKey(NormalizeMac(s)) == MacKey(s)
  {
    NormalizeTwice(s);
  }

  /** The hex digits are taken one by one, in upper case. */
  lemma {:induction false} HexOnlyOfChar(c: char)
    ensures HexOnly([c]) == if IsHex(UpperChar(c)) then [UpperChar(c)] else ""
  {
    assert [c][1..] == "";
    assert [UpperChar(c)] + "" == [UpperChar(c)];
  }

  /** Twelve hex digits, however they are separated, become six pairs; their key is the digits. Anything else is text. */
  lemma {:induction false} NormalizeMeans(s: string)
    ensures var h := HexOnly(s);
            if |h| == 12 then
              && NormalizeMac(s) == h[..2] + ":" + h[2..4] + ":" + h[4..6] + ":" + h[6..8] + ":" + h[8..10] + ":" + h[10..]
              && MacKey(s) == h
            else NormalizeMac(s) == ToUpper(Trim(s))
  {
    var h := HexOnly(s);
    if |h| == 12 {
      HexOnlyIsHex(s);
      ColonsOfTwelve(h);
      DropColonsOfColons(h);
    }
  }

  lemma {:induction false} ColonsOfTwelve(h: string)
    requires |h| == 12
    ensures Colons(h) == h[..2] + ":" + h[2..4] + ":" + h[4..6] + ":" + h[6..8] + ":" + h[8..10] + ":" + h[10..]
  {
    var a := h[2..];
    var b := a[2..];
    var c := b[2..];
    var d := c[2..];
    var e := d[2..];
    assert a[..2] == h[2..4] && b[..2] == h[4..6] && c[..2] == h[6..8] && d[..2] == h[8..10] && e == h[10..];
    assert Colons(e) == e;
    assert Colons(d) == h[8..10] + ":" + e;
    assert Colons(c) == h[6..8] + ":" + Colons(d);
    assert Colons(b) == h[4..6] + ":" + Colons(c);
    assert Colons(a) == h[2..4] + ":" + Colons(b);
  }

  lemma {:induction false} DropColonsOfColons(hex: string)
    requires forall i :: 0 <= i < |hex| ==> IsHex(hex[i])
    ensures DropColons(Colons(hex)) == hex
  {
    if |hex| <= 2 {
      NothingToDrop(hex);
    } else {
      var rest := hex[2..];
      DropColonsOfColons(rest);
      NothingToDrop(hex[..2]);
      DropColonsConcat(hex[..2], ":" + Colons(rest));
      var tail := ":" + Colons(rest);
      assert tail[1..] == Colons(rest) && tail[0] == ':';
      assert Colons(hex) == hex[..2] + tail;
      assert hex == hex[..2] + rest;
    }
  }

  lemma {:induction false} NothingToDrop(s: string)
    requires ':' !in s || forall i :: 0 <= i < |s| ==> IsHex(s[i])
    ensures DropColons(s) == s
  {
    if s != "" {
      NothingToDrop(s[1..]);
      assert s == [s[0]] + s[1..];
    }
  }

  lemma {:induction false} DropColonsConcat(a: string, b: string)
    ensures DropColons(a + b) == DropColons(a) + DropColons(b)
  {
    if a == "" {
      assert a + b == b;
    } else {
      DropColonsConcat(a[1..], b);
      assert (a + b)[0] == a[0] && (a + b)[1..] == a[1..] + b;
    }
  }
}
