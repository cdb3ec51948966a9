/** `format_number` of src/utils.py: Python's `f"{num:,}"`, thousands
    separated by commas. */
module NumberFormat {
  import opened Text

  predicate AllDigits(s: string) {
    forall i :: 0 <= i < |s| ==> IsDigit(s[i])
  }

  function StripCommas(s: string): (r: string)
    ensures ',' !in r
  {
    if |s| == 0 then ""
    else (if s[0] == ',' then "" else [s[0]]) + StripCommas(s[1..])
  }

  lemma {:induction false} StripCommasAppend(a: string, b: string)
    ensures StripCommas(a + b) == StripCommas(a) + StripCommas(b)
  {
    if |a| > 0 {
      assert (a + b)[1..] == a[1..] + b;
      StripCommasAppend(a[1..], b);
    } else {
      assert a + b == b;
    }
  }

  lemma {:induction false} StripCommasOfDigits(s: string)
    requires AllDigits(s)
    ensures StripCommas(s) == s
  {
    if |s| > 0 {
      StripCommasOfDigits(s[1..]);
      assert s == [s[0]] + s[1..];
    }
  }

  /** Groups a digit string in threes from the right. A comma sits exactly at
      the positions whose distance from the end is a positive multiple of
      four, so every group but the first has three digits. */
  function Group(ds: string): (r: string)
    requires AllDigits(ds) && |ds| >= 1
    ensures |r| == |ds| + (|ds| - 1) / 3
    ensures CommasEveryFour(r)
    ensures forall i :: 0 <= i < |r| && r[i] != ',' ==> IsDigit(r[i])
    ensures StripCommas(r) == ds
  {
    if |ds| <= 3 then
      StripCommasOfDigits(ds);
      ds
    else
      var head := Group(ds[..|ds| - 3]);
      var tail := ds[|ds| - 3..];
      GroupStep(head, tail);
      StripGroupStep(head, tail);
      assert ds == ds[..|ds| - 3] + tail;
      head + "," + tail
  }

  ghost predicate CommasEveryFour(r: string) {
    forall i :: 0 <= i < |r| ==> (r[i] == ',' <==> i > 0 && (|r| - i) % 4 == 0)
  }

  lemma GroupStep(head: string, tail: string)
    requires |head| >= 1 && CommasEveryFour(head)
    requires forall i :: 0 <= i < |head| && head[i] != ',' ==> IsDigit(head[i])
    requires |tail| == 3 && AllDigits(tail)
    ensures CommasEveryFour(head + "," + tail)
    ensures forall i :: 0 <= i < |head| + 4 && (head + "," + tail)[i] != ',' ==> IsDigit((head + "," + tail)[i])
  {
    var r := head + "," + tail;
    forall i | 0 <= i < |r|
      ensures r[i] == ',' <==> i > 0 && (|r| - i) % 4 == 0
    {
      if i < |head| {
        assert r[i] == head[i];
        assert |r| - i == (|head| - i) + 4;
      } else if i > |head| {
        assert r[i] == tail[i - |head| - 1];
      }
    }
  }

  lemma StripGroupStep(head: string, tail: string)
    requires AllDigits(tail)
    ensures StripCommas(head + "," + tail) == StripCommas(head) + tail
  {
    assert head + "," + tail == head + ([','] + tail);
    StripCommasAppend(head, [','] + tail);
    StripCommaThenDigits(tail);
  }

  lemma StripCommaThenDigits(tail: string)
    requires AllDigits(tail)
    ensures StripCommas([','] + tail) == tail
  {
    assert ([','] + tail)[1..] == tail;
    StripCommasOfDigits(tail);
  }

  /** Python's `f"{num:,}"` for an `int`. */
  function FormatNumber(num: int): (r: string)
    ensures StripCommas(r) == Str(num)
    ensures num >= 0 ==> r == Group(Digits(num))
    ensures num < 0 ==> r == "-" + Group(Digits(-num))
  {
    var ds := if num < 0 then Digits(-num) else Digits(num);
    var g := Group(ds);
    if num < 0 then
      StripCommasAppend("-", g);
      "-" + g
    else g
  }
}
