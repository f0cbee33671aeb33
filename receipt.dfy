/**
 * The receipt's "Rupees in Words" line: an amount written out in words on the
 * Indian scale (Hundred, Thousand, Lakh, Crore).
 *
 * `NumToWords` is the converter as the receipt builds it, string by string.
 * `Words` is the same conversion as a list of words, and `ParseWords` reads
 * such a list back into a number; together they show that the written form
 * determines the amount.
 */
module Receipt {

  import opened Wrappers
  import opened Strings

  /** The words for 0 to 19; index 0 is the empty word. */
  const Ones: seq<string> := [
    "", "One", "Two", "Three", "Four",
    "Five", "Six", "Seven", "Eight", "Nine",
    "Ten", "Eleven", "Twelve", "Thirteen", "Fourteen",
    "Fifteen", "Sixteen", "Seventeen", "Eighteen", "Nineteen"
  ]

  /** The words for the multiples of ten; indices 0 and 1 are unused. */
  const Tens: seq<string> := [
    "", "", "Twenty", "Thirty", "Forty",
    "Fifty", "Sixty", "Seventy", "Eighty", "Ninety"
  ]

  /** `numToWords`, the converter for a positive amount (it gives "" for 0). */
  function NumToWords(n: nat): (r: string)
    ensures n == 0 <==> r == ""
    decreases n
  {
    if n < 20 then Ones[n]
    else if n < 100 then Tens[n / 10] + (if n % 10 != 0 then " " + Ones[n % 10] else "")
    else if n < 1000 then
      Ones[n / 100] + " Hundred" + (if n % 100 != 0 then " " + NumToWords(n % 100) else "")
    else if n < 100000 then
      NumToWords(n / 1000) + " Thousand" + (if n % 1000 != 0 then " " + NumToWords(n % 1000) else "")
    else if n < 10000000 then
      NumToWords(n / 100000) + " Lakh" + (if n % 100000 != 0 then " " + NumToWords(n % 100000) else "")
    else
      NumToWords(n / 10000000) + " Crore" + (if n % 10000000 != 0 then " " + NumToWords(n % 10000000) else "")
  }

  /** `numberToWords`: "Zero" for 0, otherwise a non-empty, singly spaced list of words. */
  function NumberToWords(num: nat): (r: string)
    ensures num == 0 ==> r == "Zero"
    ensures WellSpaced(r)
  {
    if num == 0 then
      assert forall i :: 0 <= i < |"Zero"| ==> "Zero"[i] != ' ';
      "Zero"
    else
      NumToWordsWellSpaced(num);
      NumToWords(num)
  }

  /** The amount printed on a receipt: a missing paid fee is written as zero. */
  function ReceiptAmountWords(paidFee: Option<nat>): (r: string)
    ensures paidFee.None? ==> r == "Zero"
    ensures paidFee.Some? ==> ParseAmount(r) == paidFee.value
  {
    var amount := if paidFee.Some? then paidFee.value else 0;
    NumberToWordsRoundTrip(amount);
    NumberToWords(amount)
  }

  // ---------------------------------------------------------------------------
  // The same conversion, word by word
  // ---------------------------------------------------------------------------

  /** A single word: non-empty and free of spaces. */
  predicate IsWord(w: string)
  {
    w != "" && ' ' !in w
  }

  /** The scale words, each of which multiplies what stands before it. */
  predicate IsScale(w: string)
  {
    w == "Hundred" || w == "Thousand" || w == "Lakh" || w == "Crore"
  }

  /** Every entry of the tables that the converter indexes is a single, non-scale word. */
  lemma OnesEntry(k: int)
    requires 1 <= k < 20
    ensures IsWord(Ones[k]) && !IsScale(Ones[k]) && WordValue(Ones[k]) == k
  {
    if k < 6 {
      OnesEntryFrom1(k);
    } else if k < 11 {
      OnesEntryFrom6(k);
    } else if k < 16 {
      OnesEntryFrom11(k);
    } else {
      OnesEntryFrom16(k);
    }
  }

  lemma {:induction false} OnesEntryFrom1(k: int)
    requires 1 <= k < 6
    ensures IsWord(Ones[k]) && !IsScale(Ones[k]) && WordValue(Ones[k]) == k
  {
    if k == 1 {
      assert Ones[k] == "One";
    } else if k == 2 {
      assert Ones[k] == "Two";
    } else if k == 3 {
      assert Ones[k] == "Three";
    } else if k == 4 {
      assert Ones[k] == "Four";
    } else if k == 5 {
      assert Ones[k] == "Five";
    }
  }

  lemma {:induction false} OnesEntryFrom6(k: int)
    requires 6 <= k < 11
    ensures IsWord(Ones[k]) && !IsScale(Ones[k]) && WordValue(Ones[k]) == k
  {
    if k == 6 {
      assert Ones[k] == "Six";
    } else if k == 7 {
      assert Ones[k] == "Seven";
    } else if k == 8 {
      assert Ones[k] == "Eight";
    } else if k == 9 {
      assert Ones[k] == "Nine";
    } else if k == 10 {
      assert Ones[k] == "Ten";
    }
  }

  lemma {:induction false} OnesEntryFrom11(k: int)
    requires 11 <= k < 16
    ensures IsWord(Ones[k]) && !IsScale(Ones[k]) && WordValue(Ones[k]) == k
  {
    if k == 11 {
      assert Ones[k] == "Eleven";
    } else if k == 12 {
      assert Ones[k] == "Twelve";
    } else if k == 13 {
      assert Ones[k] == "Thirteen";
    } else if k == 14 {
      assert Ones[k] == "Fourteen";
    } else if k == 15 {
      assert Ones[k] == "Fifteen";
    }
  }

  lemma {:induction false} OnesEntryFrom16(k: int)
    requires 16 <= k < 20
    ensures IsWord(Ones[k]) && !IsScale(Ones[k]) && WordValue(Ones[k]) == k
  {
    if k == 16 {
      assert Ones[k] == "Sixteen";
    } else if k == 17 {
      assert Ones[k] == "Seventeen";
    } else if k == 18 {
      assert Ones[k] == "Eighteen";
    } else if k == 19 {
      assert Ones[k] == "Nineteen";
    }
  }

  lemma TensEntry(k: int)
    requires 2 <= k < 10
    ensures IsWord(Tens[k]) && !IsScale(Tens[k]) && WordValue(Tens[k]) == 10 * k
  {
    if k < 6 {
      TensEntryFrom2(k);
    } else {
      TensEntryFrom6(k);
    }
  }

  lemma {:induction false} TensEntryFrom2(k: int)
    requires 2 <= k < 6
    ensures IsWord(Tens[k]) && !IsScale(Tens[k]) && WordValue(Tens[k]) == 10 * k
  {
    if k == 2 {
      assert Tens[k] == "Twenty";
    } else if k == 3 {
      assert Tens[k] == "Thirty";
    } else if k == 4 {
      assert Tens[k] == "Forty";
    } else if k == 5 {
      assert Tens[k] == "Fifty";
    }
  }

  lemma {:induction false} TensEntryFrom6(k: int)
    requires 6 <= k < 10
    ensures IsWord(Tens[k]) && !IsScale(Tens[k]) && WordValue(Tens[k]) == 10 * k
  {
    if k == 6 {
      assert Tens[k] == "Sixty";
    } else if k == 7 {
      assert Tens[k] == "Seventy";
    } else if k == 8 {
      assert Tens[k] == "Eighty";
    } else if k == 9 {
      assert Tens[k] == "Ninety";
    }
  }

  /** The words for `n`, in order; none for 0. */
  function Words(n: nat): (r: seq<string>)
    ensures r == [] <==> n == 0
    decreases n
  {
    if n == 0 then []
    else if n < 20 then [Ones[n]]
    else if n < 100 then
      if n % 10 != 0 then [Tens[n / 10], Ones[n % 10]] else [Tens[n / 10]]
    else if n < 1000 then [Ones[n / 100], "Hundred"] + Words(n % 100)
    else if n < 100000 then Words(n / 1000) + ["Thousand"] + Words(n % 1000)
    else if n < 10000000 then Words(n / 100000) + ["Lakh"] + Words(n % 100000)
    else Words(n / 10000000) + ["Crore"] + Words(n % 10000000)
  }

  /** Each of the words is a single word, and below a hundred none is a scale word. */
  lemma {:induction false} WordsAreWords(n: nat)
    ensures AllWords(Words(n))
    ensures n < 100 ==> NoScale(Words(n))
    decreases n
  {
    if n < 100 {
      SmallWordsAreWords(n);
    } else if n < 1000 {
      WordsAreWords(n % 100);
      HundredsAreWords(n);
    } else {
      var d := ScaleDivisor(n);
      WordsAreWords(n / d);
      WordsAreWords(n % d);
      ScaledAreWords(n);
    }
  }

  lemma SmallWordsAreWords(n: nat)
    requires n < 100
    ensures AllWords(Words(n)) && NoScale(Words(n))
  {
    var ws := Words(n);
    if n == 0 {
    } else if n < 20 {
      OnesEntry(n);
      assert ws == [Ones[n]];
    } else if n % 10 != 0 {
      TensEntry(n / 10);
      OnesEntry(n % 10);
      assert ws == [Tens[n / 10], Ones[n % 10]];
    } else {
      TensEntry(n / 10);
      assert ws == [Tens[n / 10]];
    }
  }

  lemma HundredsAreWords(n: nat)
    requires 100 <= n < 1000
    requires AllWords(Words(n % 100))
    ensures AllWords(Words(n))
  {
    var a := [Ones[n / 100], "Hundred"];
    OnesEntry(n / 100);
    assert AllWords(a);
    assert Words(n) == a + Words(n % 100);
    AllWordsAppend(a, Words(n % 100));
  }

  lemma ScaledAreWords(n: nat)
    requires n >= 1000
    requires AllWords(Words(n / ScaleDivisor(n))) && AllWords(Words(n % ScaleDivisor(n)))
    ensures AllWords(Words(n))
  {
    var d := ScaleDivisor(n);
    var a := Words(n / d) + [ScaleWord(n)];
    ScaledWords(n);
    AllWordsAppend(Words(n / d), [ScaleWord(n)]);
    AllWordsAppend(a, Words(n % d));
  }

  /** None of the words is a scale word. */
  predicate NoScale(ws: seq<string>)
  {
    forall i :: 0 <= i < |ws| ==> !IsScale(ws[i])
  }

  predicate AllWords(ws: seq<string>)
  {
    forall i :: 0 <= i < |ws| ==> IsWord(ws[i])
  }

  lemma AllWordsAppend(a: seq<string>, b: seq<string>)
    requires AllWords(a) && AllWords(b)
    ensures AllWords(a + b)
  {
    forall i | 0 <= i < |a + b| ensures IsWord((a + b)[i]) {
      if i >= |a| {
        assert (a + b)[i] == b[i - |a|];
      }
    }
  }

  /** For n of at least a thousand: the scale the converter splits `n` on, and its word. */
  function ScaleDivisor(n: nat): (d: nat)
    requires n >= 1000
    ensures d == 1000 || d == 100000 || d == 10000000
  {
    if n < 100000 then 1000 else if n < 10000000 then 100000 else 10000000
  }

  function ScaleWord(n: nat): string
    requires n >= 1000
  {
    if n < 100000 then "Thousand" else if n < 10000000 then "Lakh" else "Crore"
  }

  /** From a thousand upwards the words split into quotient, scale word and remainder. */
  lemma ScaledWords(n: nat)
    requires n >= 1000
    ensures Words(n) == Words(n / ScaleDivisor(n)) + [ScaleWord(n)] + Words(n % ScaleDivisor(n))
    ensures NumToWords(n) == NumToWords(n / ScaleDivisor(n)) + " " + ScaleWord(n) +
              (if n % ScaleDivisor(n) != 0 then " " + NumToWords(n % ScaleDivisor(n)) else "")
  {
    WordsScaled(n);
    TextScaled(n);
  }

  lemma WordsScaled(n: nat)
    requires n >= 1000
    ensures Words(n) == Words(n / ScaleDivisor(n)) + [ScaleWord(n)] + Words(n % ScaleDivisor(n))
  {
    if n < 100000 {
      assert ScaleDivisor(n) == 1000;
    } else if n < 10000000 {
      assert ScaleDivisor(n) == 100000;
    } else {
      assert ScaleDivisor(n) == 10000000;
    }
  }

  lemma TextScaled(n: nat)
    requires n >= 1000
    ensures NumToWords(n) == NumToWords(n / ScaleDivisor(n)) + " " + ScaleWord(n) +
              (if n % ScaleDivisor(n) != 0 then " " + NumToWords(n % ScaleDivisor(n)) else "")
  {
    var d := ScaleDivisor(n);
    var tail := if n % d != 0 then " " + NumToWords(n % d) else "";
    var q := NumToWords(n / d);
    if n < 100000 {
      assert NumToWords(n) == q + " Thousand" + tail;
      assert q + " Thousand" == q + " " + "Thousand";
    } else if n < 10000000 {
      assert NumToWords(n) == q + " Lakh" + tail;
      assert q + " Lakh" == q + " " + "Lakh";
    } else {
      assert NumToWords(n) == q + " Crore" + tail;
      assert q + " Crore" == q + " " + "Crore";
    }
  }

  /** Joining around a scale word. */
  lemma JoinScaled(a: seq<string>, w: string, b: seq<string>)
    requires |a| >= 1
    ensures Join(a + [w] + b, " ") == Join(a, " ") + " " + w + (if b != [] then " " + Join(b, " ") else "")
  {
    var aw := a + [w];
    assert Join([w], " ") == w;
    JoinAppend(a, [w], " ");
    assert Join(aw, " ") == Join(a, " ") + " " + w;
    if b != [] {
      JoinAppend(aw, b, " ");
    } else {
      assert aw + b == aw;
    }
  }

  /** A scale word occurs in the words for `n` only once `n` reaches that scale. */
  lemma {:induction false} ScaleThresholds(n: nat)
    ensures n < 10000000 ==> "Crore" !in Words(n)
    ensures n < 100000 ==> "Lakh" !in Words(n)
    ensures n < 1000 ==> "Thousand" !in Words(n)
    decreases n
  {
    if n < 100 {
      SmallWordsAreWords(n);
      assert NoScale(Words(n));
    } else if n < 1000 {
      ScaleThresholds(n % 100);
    } else if n < 10000000 {
      ScaleThresholds(n / ScaleDivisor(n));
      ScaleThresholds(n % ScaleDivisor(n));
      ScaledWords(n);
    }
  }

  /** The converter's string is its words joined by single spaces. */
  lemma {:induction false} NumToWordsIsJoin(n: nat)
    ensures NumToWords(n) == Join(Words(n), " ")
    decreases n
  {
    if n < 100 {
      SmallIsJoin(n);
    } else if n < 1000 {
      NumToWordsIsJoin(n % 100);
      HundredsIsJoin(n);
    } else {
      var d := ScaleDivisor(n);
      NumToWordsIsJoin(n / d);
      NumToWordsIsJoin(n % d);
      ScaledIsJoin(n);
    }
  }

  lemma SmallIsJoin(n: nat)
    requires n < 100
    ensures NumToWords(n) == Join(Words(n), " ")
  {
    if n >= 20 && n % 10 != 0 {
      var ws := [Tens[n / 10], Ones[n % 10]];
      assert Words(n) == ws;
      assert ws[1..] == [Ones[n % 10]];
      assert Join(ws, " ") == Tens[n / 10] + " " + Ones[n % 10];
    }
  }

  lemma HundredsIsJoin(n: nat)
    requires 100 <= n < 1000
    requires NumToWords(n % 100) == Join(Words(n % 100), " ")
    ensures NumToWords(n) == Join(Words(n), " ")
  {
    var a := Ones[n / 100];
    var b := Words(n % 100);
    assert Words(n) == [a] + ["Hundred"] + b;
    assert NumToWords(n) == a + " Hundred" + (if n % 100 != 0 then " " + NumToWords(n % 100) else "");
    JoinScaled([a], "Hundred", b);
    assert a + " Hundred" == a + " " + "Hundred";
  }

  lemma ScaledIsJoin(n: nat)
    requires n >= 1000
    requires NumToWords(n / ScaleDivisor(n)) == Join(Words(n / ScaleDivisor(n)), " ")
    requires NumToWords(n % ScaleDivisor(n)) == Join(Words(n % ScaleDivisor(n)), " ")
    ensures NumToWords(n) == Join(Words(n), " ")
  {
    var d := ScaleDivisor(n);
    ScaledWords(n);
    assert Words(n / d) != [];
    JoinScaled(Words(n / d), ScaleWord(n), Words(n % d));
  }

  /** Words separated by single spaces: non-empty, no space at either end, no two spaces in a row. */
  predicate WellSpaced(s: string)
  {
    s != [] && s[0] != ' ' && s[|s| - 1] != ' ' &&
    forall i :: 0 <= i < |s| - 1 ==> !(s[i] == ' ' && s[i + 1] == ' ')
  }

  /** Joining single words with single spaces gives a singly spaced string. */
  lemma {:induction false} JoinWordsWellSpaced(ws: seq<string>)
    requires |ws| >= 1
    requires forall i :: 0 <= i < |ws| ==> IsWord(ws[i])
    ensures WellSpaced(Join(ws, " "))
  {
    var w := ws[0];
    assert IsWord(w);
    assert w[0] in w && w[|w| - 1] in w;
    if |ws| == 1 {
      forall i | 0 <= i < |w| - 1 ensures w[i] != ' ' {
        assert w[i] in w;
      }
    } else {
      var rest := Join(ws[1..], " ");
      JoinWordsWellSpaced(ws[1..]);
      var s := w + " " + rest;
      assert Join(ws, " ") == s;
      forall i | 0 <= i < |s| - 1 ensures !(s[i] == ' ' && s[i + 1] == ' ') {
        if i < |w| {
          assert s[i] == w[i] && w[i] in w;
        } else if i == |w| {
          assert s[i + 1] == rest[0];
        } else {
          assert s[i] == rest[i - |w| - 1] && s[i + 1] == rest[i - |w|];
        }
      }
    }
  }

  /** From 1 upwards the converter's output is non-empty and singly spaced. */
  lemma NumToWordsWellSpaced(n: nat)
    requires n >= 1
    ensures WellSpaced(NumToWords(n))
  {
    NumToWordsIsJoin(n);
    WordsAreWords(n);
    JoinWordsWellSpaced(Words(n));
  }

  // ---------------------------------------------------------------------------
  // Reading the words back
  // ---------------------------------------------------------------------------

  /** The value of a number word; 0 for any other word. */
  function WordValue(w: string): nat
  {
    if w == "One" then 1
    else if w == "Two" then 2
    else if w == "Three" then 3
    else if w == "Four" then 4
    else if w == "Five" then 5
    else if w == "Six" then 6
    else if w == "Seven" then 7
    else if w == "Eight" then 8
    else if w == "Nine" then 9
    else if w == "Ten" then 10
    else if w == "Eleven" then 11
    else if w == "Twelve" then 12
    else if w == "Thirteen" then 13
    else if w == "Fourteen" then 14
    else if w == "Fifteen" then 15
    else if w == "Sixteen" then 16
    else if w == "Seventeen" then 17
    else if w == "Eighteen" then 18
    else if w == "Nineteen" then 19
    else if w == "Twenty" then 20
    else if w == "Thirty" then 30
    else if w == "Forty" then 40
    else if w == "Fifty" then 50
    else if w == "Sixty" then 60
    else if w == "Seventy" then 70
    else if w == "Eighty" then 80
    else if w == "Ninety" then 90
    else 0
  }

  /** Sum of the values of scale-free words: "Twenty Three" is 23. */
  function SumValues(ws: seq<string>): nat
  {
    if ws == [] then 0 else WordValue(ws[0]) + SumValues(ws[1..])
  }

  /** Position of the last occurrence of `w`. */
  function LastIndex(ws: seq<string>, w: string): (i: nat)
    requires w in ws
    ensures i < |ws| && ws[i] == w
    ensures forall j :: i < j < |ws| ==> ws[j] != w
  {
    if ws[|ws| - 1] == w then |ws| - 1
    else
      assert w in ws[..|ws| - 1] by {
        var k :| 0 <= k < |ws| && ws[k] == w;
        assert ws[..|ws| - 1][k] == w;
      }
      LastIndex(ws[..|ws| - 1], w)
  }

  /**
   * Reads a list of words as an amount: the last (largest) scale word splits the
   * list into a multiplier before it and a remainder after it.
   */
  function ParseWords(ws: seq<string>): nat
    decreases |ws|
  {
    if "Crore" in ws then
      var i := LastIndex(ws, "Crore");
      ParseWords(ws[..i]) * 10000000 + ParseWords(ws[i + 1..])
    else if "Lakh" in ws then
      var i := LastIndex(ws, "Lakh");
      ParseWords(ws[..i]) * 100000 + ParseWords(ws[i + 1..])
    else if "Thousand" in ws then
      var i := LastIndex(ws, "Thousand");
      ParseWords(ws[..i]) * 1000 + ParseWords(ws[i + 1..])
    else if "Hundred" in ws then
      var i := LastIndex(ws, "Hundred");
      ParseWords(ws[..i]) * 100 + ParseWords(ws[i + 1..])
    else SumValues(ws)
  }

  /** Reads a receipt's amount in words. */
  function ParseAmount(s: string): nat
  {
    ParseWords(Split(s, ' '))
  }

  /** Splitting a list at a scale word that does not occur after it. */
  lemma {:induction false} ParseAtScale(a: seq<string>, w: string, b: seq<string>)
    requires w !in b
    ensures LastIndex(a + [w] + b, w) == |a|
    ensures (a + [w] + b)[..|a|] == a && (a + [w] + b)[|a| + 1..] == b
  {
    var ws := a + [w] + b;
    var i := LastIndex(ws, w);
    assert ws[|a|] == w;
  }

  /** Reading back the words for `n` gives `n`. */
  lemma {:induction false} ParseWordsOfWords(n: nat)
    ensures ParseWords(Words(n)) == n
    decreases n
  {
    if n < 100 {
      ParseBelowHundred(n);
    } else if n < 1000 {
      ParseWordsOfWords(n % 100);
      ParseHundreds(n);
    } else {
      ParseWordsOfWords(n / ScaleDivisor(n));
      ParseWordsOfWords(n % ScaleDivisor(n));
      ParseScaled(n);
    }
  }

  /** Without scale words a list is read by its word values. */
  lemma ParseScaleFree(ws: seq<string>)
    requires NoScale(ws)
    ensures ParseWords(ws) == SumValues(ws)
  {
    assert "Crore" !in ws && "Lakh" !in ws && "Thousand" !in ws && "Hundred" !in ws;
  }

  lemma ParseBelowHundred(n: nat)
    requires n < 100
    ensures ParseWords(Words(n)) == n
  {
    var ws := Words(n);
    WordsAreWords(n);
    ParseScaleFree(ws);
    if n == 0 {
    } else if n < 20 {
      OnesEntry(n);
      assert SumValues(ws) == WordValue(Ones[n]) + SumValues([]);
    } else if n % 10 != 0 {
      TensEntry(n / 10);
      OnesEntry(n % 10);
      assert ws[1..] == [Ones[n % 10]];
      assert SumValues(ws[1..]) == WordValue(Ones[n % 10]) + SumValues([]);
    } else {
      TensEntry(n / 10);
      assert SumValues(ws) == WordValue(Tens[n / 10]) + SumValues([]);
    }
  }

  lemma ParseHundreds(n: nat)
    requires 100 <= n < 1000
    requires ParseWords(Words(n % 100)) == n % 100
    ensures ParseWords(Words(n)) == n
  {
    var ws := Words(n);
    var a := [Ones[n / 100]];
    var b := Words(n % 100);
    OnesEntry(n / 100);
    WordsAreWords(n % 100);
    assert ws == a + ["Hundred"] + b;
    assert "Crore" !in ws && "Lakh" !in ws && "Thousand" !in ws;
    ParseAtScale(a, "Hundred", b);
    ParseScaleFree(a);
    assert SumValues(a) == WordValue(Ones[n / 100]) + SumValues([]);
  }

  lemma ParseScaled(n: nat)
    requires n >= 1000
    requires ParseWords(Words(n / ScaleDivisor(n))) == n / ScaleDivisor(n)
    requires ParseWords(Words(n % ScaleDivisor(n))) == n % ScaleDivisor(n)
    ensures ParseWords(Words(n)) == n
  {
    var d := ScaleDivisor(n);
    var ws := Words(n);
    var a := Words(n / d);
    var b := Words(n % d);
    ScaledWords(n);
    ScaleThresholds(n / d);
    ScaleThresholds(n % d);
    ParseAtScale(a, ScaleWord(n), b);
    if n < 10000000 {
      assert "Crore" !in ws;
      if n < 100000 {
        assert "Lakh" !in ws;
      }
    }
  }

  /** Reading the words of a receipt gives back its amount. */
  lemma NumberToWordsRoundTrip(num: nat)
    ensures ParseAmount(NumberToWords(num)) == num
  {
    if num == 0 {
      ZeroRoundTrip();
    } else {
      var ws := Words(num);
      NumToWordsIsJoin(num);
      WordsAreWords(num);
      assert forall i :: 0 <= i < |ws| ==> IsWord(ws[i]);
      SplitJoin(ws, ' ');
      ParseWordsOfWords(num);
      assert ParseAmount(NumberToWords(num)) == ParseWords(Split(Join(ws, " "), ' '));
    }
  }

  lemma ZeroRoundTrip()
    ensures ParseAmount("Zero") == 0
  {
    ZeroSplits();
    ZeroValue();
  }

  lemma ZeroSplits()
    ensures Split("Zero", ' ') == ["Zero"]
  {
    assert ' ' !in "Zero";
    SplitJoin(["Zero"], ' ');
    assert Join(["Zero"], " ") == "Zero";
  }

  lemma ZeroValue()
    ensures ParseWords(["Zero"]) == 0
  {
    assert SumValues(["Zero"]) == WordValue("Zero") + SumValues([]);
  }

  /** Different amounts are written differently. */
  lemma NumberToWordsInjective(m: nat, n: nat)
    requires NumberToWords(m) == NumberToWords(n)
    ensures m == n
  {
    NumberToWordsRoundTrip(m);
    NumberToWordsRoundTrip(n);
  }

  /**
   * An exact multiple of a scale is written as its multiplier and the scale
   * word, with no trailing part: 100000 is "One Lakh", 20000000 "Two Crore".
   */
  lemma ExactMultiples(n: nat)
    requires n >= 1000 && n % ScaleDivisor(n) == 0
    ensures n / ScaleDivisor(n) >= 1
    ensures NumberToWords(n) == NumberToWords(n / ScaleDivisor(n)) + " " + ScaleWord(n)
  {
    ScaledWords(n);
  }
}
