/** ASCII renderings of the Python string operations that the modelled code relies on. */
module Text {

  predicate IsSpace(c: char) {
    c == ' ' || '\t' <= c <= '\r' || '\U{1c}' <= c <= '\U{1f}'
  }

  /** A string that `strip()` leaves alone. */
  predicate Trimmed(s: string) {
    s == "" || (!IsSpace(s[0]) && !IsSpace(s[|s| - 1]))
  }

  function StripLeft(s: string): string {
    if s != "" && IsSpace(s[0]) then StripLeft(s[1..]) else s
  }

  function StripRight(s: string): string {
    if s != "" && IsSpace(s[|s| - 1]) then StripRight(s[..|s| - 1]) else s
  }

  /** `s.strip()` */
  function Strip(s: string): string {
    StripRight(StripLeft(s))
  }

  function LowerChar(c: char): char {
    if 'A' <= c <= 'Z' then (c as int + 32) as char else c
  }

  /** `s.lower()` */
  function Lower(s: string): string {
    seq(|s|, i requires 0 <= i < |s| => LowerChar(s[i]))
  }

  /** `" ".join(s.strip().lower().split())` */
  function Normalized(s: string): string {
    if s == "" then ""
    else
      var n := |s| - 1;
      var before := Normalized(s[..n]);
      if IsSpace(s[n]) then before
      else if before == "" || !IsSpace(s[n - 1]) then before + [LowerChar(s[n])]
      else before + [' ', LowerChar(s[n])]
  }

  predicate Blank(s: string) {
    forall i | 0 <= i < |s| :: IsSpace(s[i])
  }

  lemma {:induction false} NormalizedBlank(s: string)
    ensures Normalized(s) == "" <==> Blank(s)
  {
    if s != "" {
      NormalizedBlank(s[..|s| - 1]);
    }
  }

  // ---------- strip and lower ----------

  lemma {:induction false} StripLeftTail(s: string)
    ensures StripLeft(s) == "" || !IsSpace(StripLeft(s)[0])
    ensures forall c | c in StripLeft(s) :: c in s
  {
    if s != "" && IsSpace(s[0]) {
      StripLeftTail(s[1..]);
    }
  }

  lemma {:induction false} StripRightHead(s: string)
    ensures StripRight(s) <= s
    ensures StripRight(s) == "" || !IsSpace(StripRight(s)[|StripRight(s)| - 1])
    ensures s != "" && !IsSpace(s[0]) ==> StripRight(s) != ""
  {
    if s != "" && IsSpace(s[|s| - 1]) {
      StripRightHead(s[..|s| - 1]);
    }
  }

  /** `strip` gives a trimmed string made of characters of its argument. */
  lemma StripTrims(s: string)
    ensures Trimmed(Strip(s)) && forall c | c in Strip(s) :: c in s
  {
    StripLeftTail(s);
    StripRightHead(StripLeft(s));
  }

  lemma {:induction false} StripLeftShortens(s: string)
    ensures |StripLeft(s)| <= |s|
  {
    if s != "" && IsSpace(s[0]) {
      StripLeftShortens(s[1..]);
    }
  }

  lemma StripShortens(s: string)
    ensures |Strip(s)| <= |s|
  {
    StripLeftShortens(s);
    StripRightHead(StripLeft(s));
  }

  lemma TrimmedStays(s: string)
    requires Trimmed(s)
    ensures Strip(s) == s
  {
  }

  lemma LowerAgain(s: string)
    ensures Lower(Lower(s)) == Lower(s)
  {
  }

  lemma LowerKeepsShape(s: string)
    ensures Trimmed(Lower(s)) == Trimmed(s)
    ensures ':' in Lower(s) <==> ':' in s
  {
    if ':' in s {
      var i :| 0 <= i < |s| && s[i] == ':';
      assert Lower(s)[i] == ':';
    }
  }

  // ---------- what these operations compute ----------

  /** The ASCII white space: tab, line feed, vertical tab, form feed, carriage return, the four separators and the space. */
  lemma SpacesExactly(c: char)
    ensures IsSpace(c) <==> c as int in {9, 10, 11, 12, 13, 28, 29, 30, 31, 32}
  {
  }

  /** White space on both sides is all that `strip` takes away, and it takes all of it. */
  lemma StripExactly(s: string) returns (left: string, right: string)
    ensures s == left + Strip(s) + right && Blank(left) && Blank(right) && Trimmed(Strip(s))
  {
    left := StripLeftRest(s);
    right := StripRightRest(StripLeft(s));
    StripTrims(s);
    assert s == left + (Strip(s) + right);
  }

  lemma {:induction false} StripLeftRest(s: string) returns (left: string)
    ensures s == left + StripLeft(s) && Blank(left)
  {
    if s != "" && IsSpace(s[0]) {
      var rest := StripLeftRest(s[1..]);
      var stripped := StripLeft(s);
      left := [s[0]] + rest;
      assert s == [s[0]] + (rest + stripped) == left + stripped;
    } else {
      left := "";
    }
  }

  lemma {:induction false} StripRightRest(s: string) returns (right: string)
    ensures s == StripRight(s) + right && Blank(right)
  {
    if s != "" && IsSpace(s[|s| - 1]) {
      var rest := StripRightRest(s[..|s| - 1]);
      var stripped := StripRight(s);
      right := rest + [s[|s| - 1]];
      assert s == (stripped + rest) + [s[|s| - 1]] == stripped + right;
    } else {
      right := "";
    }
  }

  /** Lower case character by character. */
  lemma LowerExactly(s: string)
    ensures |Lower(s)| == |s|
    ensures forall i | 0 <= i < |s| ::
      if 'A' <= s[i] <= 'Z' then 'a' <= Lower(s)[i] <= 'z' && Lower(s)[i] as int - 'a' as int == s[i] as int - 'A' as int
      else Lower(s)[i] == s[i]
  {
  }

  /** `s.split()`: the longest stretches without white space. */
  function Words(s: string): seq<string> {
    if s == "" then []
    else
      var n := |s| - 1;
      var before := Words(s[..n]);
      if IsSpace(s[n]) then before
      else if before == [] || IsSpace(s[n - 1]) then before + [[s[n]]]
      else before[..|before| - 1] + [before[|before| - 1] + [s[n]]]
  }

  /** `" ".join(words)` */
  function Spaced(words: seq<string>): string {
    if words == [] then ""
    else if |words| == 1 then words[0]
    else Spaced(words[..|words| - 1]) + " " + words[|words| - 1]
  }

  lemma SpacedLast(words: seq<string>, c: char)
    requires words != []
    ensures Spaced(words[..|words| - 1] + [words[|words| - 1] + [c]]) == Spaced(words) + [c]
  {
    var n := |words| - 1;
    var longer := words[..n] + [words[n] + [c]];
    assert longer[..n] == words[..n] && longer[n] == words[n] + [c];
    if n > 0 {
      SpacedGlue(Spaced(words[..n]), words[n], c);
    }
  }

  lemma SpacedGlue(a: string, b: string, c: char)
    ensures a + " " + (b + [c]) == (a + " " + b) + [c]
  {
  }

  lemma {:induction false} WordsOfNonBlank(s: string)
    ensures Words(s) == [] <==> Blank(s)
    ensures forall w | w in Words(s) :: w != "" && forall c | c in w :: !IsSpace(c)
  {
    if s != "" {
      var n := |s| - 1;
      WordsOfNonBlank(s[..n]);
      var before := Words(s[..n]);
      assert before != [] ==> before[|before| - 1] in before;
      forall w | w in Words(s) ensures w != "" && forall c | c in w :: !IsSpace(c) {
        if w !in before && before != [] {
          var last := before[|before| - 1];
          assert w == [s[n]] || w == last + [s[n]];
        }
      }
    }
  }

  /** Normalizing a text is lower case, words apart, and one space between them. */
  lemma {:induction false} NormalizedExactly(s: string)
    ensures Normalized(s) == Spaced(Words(Lower(s)))
  {
    if s == "" {
      assert Lower(s) == "";
    } else {
      var n := |s| - 1;
      var before := Words(Lower(s[..n]));
      NormalizedExactly(s[..n]);
      NormalizedBlank(s[..n]);
      WordsOfNonBlank(Lower(s[..n]));
      assert Lower(s)[..n] == Lower(s[..n]);
      assert forall i | 0 <= i < n :: IsSpace(Lower(s[..n])[i]) <==> IsSpace(s[..n][i]);
      assert Blank(s[..n]) <==> Blank(Lower(s[..n]));
      if IsSpace(s[n]) {
      } else if before == [] {
        assert before + [[LowerChar(s[n])]] == [[LowerChar(s[n])]];
      } else if IsSpace(s[n - 1]) {
        var words := before + [[LowerChar(s[n])]];
        assert words[..|words| - 1] == before;
        assert Spaced(before) + " " + [LowerChar(s[n])] == Spaced(before) + [' ', LowerChar(s[n])];
      } else {
        SpacedLast(before, LowerChar(s[n]));
      }
    }
  }

  /** `strip` finds a trimmed text again, whatever white space is put around it. */
  lemma {:induction false} StripAround(left: string, text: string, right: string)
    requires Blank(left) && Blank(right) && Trimmed(text) && text != ""
    ensures Strip(left + text + right) == text
  {
    StripLeftAround(left, text + right);
    assert left + text + right == left + (text + right);
    StripRightAround(text, right);
  }

  lemma {:induction false} StripLeftAround(left: string, text: string)
    requires Blank(left) && text != "" && !IsSpace(text[0])
    ensures StripLeft(left + text) == text
  {
    if left == "" {
      assert left + text == text;
    } else {
      StripLeftAround(left[1..], text);
      assert (left + text)[1..] == left[1..] + text;
    }
  }

  lemma {:induction false} StripRightAround(text: string, right: string)
    requires Blank(right) && text != "" && !IsSpace(text[|text| - 1])
    ensures StripRight(text + right) == text
  {
    if right == "" {
      assert text + right == text;
    } else {
      StripRightAround(text, right[..|right| - 1]);
      assert (text + right)[..|text + right| - 1] == text + right[..|right| - 1];
    }
  }
}
