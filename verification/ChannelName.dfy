/** Channel names as typed, brought into their canonical form. */
module ChannelName {
  predicate Digit(c: char) { '0' <= c <= '9' }

  predicate Lower(c: char) { 'a' <= c <= 'z' }

  predicate Upper(c: char) { 'A' <= c <= 'Z' }

  /** The characters with the Unicode property White_Space. */
  predicate Whitespace(c: char) {
    var n := c as int;
    9 <= n <= 13 || n == 0x20 || n == 0x85 || n == 0xA0 || n == 0x1680 || 0x2000 <= n <= 0x200A
    || n == 0x2028 || n == 0x2029 || n == 0x202F || n == 0x205F || n == 0x3000
  }

  predicate Kept(c: char) { Digit(c) || Lower(c) || Upper(c) || c == '_' }

  predicate Separates(c: char) { c == '-' || Whitespace(c) }

  function ToLower(c: char): char { if Upper(c) then 'a' + (c as int - 'A' as int) as char else c }

  // ----- The meaning of a name: its words, joined by dashes ---------------------------------

  /** The runs of kept characters between separators, some of them possibly empty.
      Everything that is neither kept nor a separator is dropped. */
  function Words(s: string): (w: seq<string>)
    ensures w != []
  {
    if s == [] then [[]]
    else
      var before, c := Words(s[..|s| - 1]), s[|s| - 1];
      if Separates(c) then before + [[]]
      else if Kept(c) then before[..|before| - 1] + [before[|before| - 1] + [ToLower(c)]]
      else before
  }

  function NonEmpty(words: seq<string>): seq<string> {
    if words == [] then []
    else NonEmpty(words[..|words| - 1]) + (if words[|words| - 1] == [] then [] else [words[|words| - 1]])
  }

  function Join(words: seq<string>): string {
    if words == [] then []
    else if |words| == 1 then words[0]
    else Join(words[..|words| - 1]) + ['-'] + words[|words| - 1]
  }

  function Name(s: string): string { Join(NonEmpty(Words(s))) }

  predicate NameChar(c: char) { Digit(c) || Lower(c) || c == '_' || c == '-' }

  predicate EndsWithDash(s: string) { s != [] && s[|s| - 1] == '-' }

  /** Name characters only, no dash in front, no two dashes together. */
  predicate Prefix(s: string) {
    && (forall i :: 0 <= i < |s| ==> NameChar(s[i]))
    && (s != [] ==> s[0] != '-')
    && (forall i :: 0 <= i < |s| - 1 ==> s[i] != '-' || s[i + 1] != '-')
  }

  predicate WellFormed(s: string) { Prefix(s) && !EndsWithDash(s) }

  // ----- The loop --------------------------------------------------------------------------------

  // The name so far, with a dash behind it once a separator has followed.
  function PendingOf(words: seq<string>): string
    requires words != []
  {
    var name := Join(NonEmpty(words));
    if words[|words| - 1] == [] && name != [] then name + ['-'] else name
  }

  function Pending(s: string): string { PendingOf(Words(s)) }

  function Pushed(text: string, c: char): string {
    if Kept(c) then text + [ToLower(c)]
    else if Separates(c) && text != [] && !EndsWithDash(text) then text + ['-']
    else text
  }

  lemma {:induction false} WordsHoldNoDash(s: string)
    ensures forall i, k :: 0 <= i < |Words(s)| && 0 <= k < |Words(s)[i]| ==>
              NameChar(Words(s)[i][k]) && Words(s)[i][k] != '-'
  {
    if s != [] {
      WordsHoldNoDash(s[..|s| - 1]);
    }
  }

  lemma JoinEnds(words: seq<string>)
    requires forall w :: w in words ==> w != []
    ensures words != [] ==> words[|words| - 1] != [] && Join(words) != []
                            && Join(words)[|Join(words)| - 1] == words[|words| - 1][|words[|words| - 1]| - 1]
  {
    if words != [] {
      assert words[|words| - 1] in words;
    }
  }

  lemma {:induction false} NonEmptyWords(words: seq<string>)
    ensures forall w :: w in NonEmpty(words) ==> w in words && w != []
  {
    if words != [] {
      NonEmptyWords(words[..|words| - 1]);
    }
  }

  lemma {:induction false} NameEndsInWord(s: string)
    ensures !EndsWithDash(Name(s))
  {
    var words := NonEmpty(Words(s));
    NonEmptyWords(Words(s));
    JoinEnds(words);
    WordsHoldNoDash(s);
    if words != [] {
      var last := words[|words| - 1];
      assert last in Words(s);
      var i :| 0 <= i < |Words(s)| && Words(s)[i] == last;
      assert Words(s)[i][|last| - 1] != '-';
    }
  }

  lemma JoinNonEmpty(words: seq<string>)
    ensures NonEmpty(words) == [] <==> Join(NonEmpty(words)) == []
  {
    NonEmptyWords(words);
    JoinEnds(NonEmpty(words));
  }

  // One more character in the last word.
  lemma {:induction false} LastWordGrows(front: seq<string>, last: string, c: char)
    ensures Join(NonEmpty(front + [last + [c]])) ==
            if last == [] && Join(NonEmpty(front)) != [] then Join(NonEmpty(front)) + ['-'] + [c]
            else Join(NonEmpty(front + [last])) + [c]
  {
    JoinNonEmpty(front);
    assert (front + [last + [c]])[..|front|] == front && (front + [last])[..|front|] == front;
    var done := NonEmpty(front);
    assert NonEmpty(front + [last + [c]]) == done + [last + [c]];
    assert (done + [last + [c]])[..|done|] == done;
    if last != [] {
      assert NonEmpty(front + [last]) == done + [last];
      assert (done + [last])[..|done|] == done;
    } else {
      assert NonEmpty(front + [last]) == done;
      assert last + [c] == [c];
    }
  }

  lemma {:induction false} NameAfterSeparator(words: seq<string>)
    ensures Join(NonEmpty(words + [[]])) == Join(NonEmpty(words))
  {
    assert (words + [[]])[..|words|] == words;
    assert NonEmpty(words) + [] == NonEmpty(words);
  }

  lemma {:induction false} SeparatorStep(s: string, c: char)
    requires Separates(c)
    ensures Pending(s + [c]) == Pushed(Pending(s), c)
  {
    assert (s + [c])[..|s|] == s;
    NameEndsInWord(s);
    NameAfterSeparator(Words(s));
    assert Words(s + [c]) == Words(s) + [[]];
  }

  lemma {:induction false} KeptWords(s: string, c: char)
    requires Kept(c)
    ensures var words := Words(s);
            Words(s + [c]) == words[..|words| - 1] + [words[|words| - 1] + [ToLower(c)]]
  {
    assert (s + [c])[..|s|] == s;
  }

  lemma {:induction false} LastWordPends(front: seq<string>, last: string, c: char)
    ensures PendingOf(front + [last + [c]]) == PendingOf(front + [last]) + [c]
  {
    LastWordGrows(front, last, c);
    if last == [] {
      NameAfterSeparator(front);
    }
  }

  lemma {:induction false} KeptStep(s: string, c: char)
    requires Kept(c)
    ensures Pending(s + [c]) == Pushed(Pending(s), c)
  {
    var words := Words(s);
    KeptWords(s, c);
    assert words[..|words| - 1] + [words[|words| - 1]] == words;
    LastWordPends(words[..|words| - 1], words[|words| - 1], ToLower(c));
  }

  /** One turn of the loop. */
  lemma {:induction false} PendingStep(s: string, c: char)
    ensures Pending(s + [c]) == Pushed(Pending(s), c)
  {
    if Separates(c) {
      SeparatorStep(s, c);
    } else if Kept(c) {
      KeptStep(s, c);
    } else {
      assert (s + [c])[..|s|] == s;
    }
  }

  lemma {:induction false} PendingWithoutDash(s: string)
    ensures Name(s) == if EndsWithDash(Pending(s)) then Pending(s)[..|Pending(s)| - 1] else Pending(s)
  {
    NameEndsInWord(s);
  }

  function TrimStart(s: string): string { if s != [] && Whitespace(s[0]) then TrimStart(s[1..]) else s }

  function TrimEnd(s: string): string {
    if s != [] && Whitespace(s[|s| - 1]) then TrimEnd(s[..|s| - 1]) else s
  }

  lemma {:induction false} LeadingSeparator(c: char, s: string)
    requires Separates(c)
    ensures Words([c] + s) == [[]] + Words(s)
  {
    if s == [] {
      assert [c] + s == [c];
      assert [c][..0] == [];
    } else {
      assert ([c] + s)[..|s|] == [c] + s[..|s| - 1];
      LeadingSeparator(c, s[..|s| - 1]);
    }
  }

  lemma {:induction false} LeadingEmptyWord(words: seq<string>)
    ensures NonEmpty([[]] + words) == NonEmpty(words)
  {
    if words != [] {
      assert ([[]] + words)[..|words|] == [[]] + words[..|words| - 1];
      LeadingEmptyWord(words[..|words| - 1]);
    }
  }

  lemma {:induction false} TrimStartKeepsName(s: string)
    ensures Name(TrimStart(s)) == Name(s)
  {
    if s != [] && Whitespace(s[0]) {
      TrimStartKeepsName(s[1..]);
      assert s == [s[0]] + s[1..];
      LeadingSeparator(s[0], s[1..]);
      LeadingEmptyWord(Words(s[1..]));
    }
  }

  lemma {:induction false} TrimEndKeepsName(s: string)
    ensures Name(TrimEnd(s)) == Name(s)
  {
    if s != [] && Whitespace(s[|s| - 1]) {
      TrimEndKeepsName(s[..|s| - 1]);
      NameAfterSeparator(Words(s[..|s| - 1]));
    }
  }

  method Push(text: string, lastWasDash: bool, c: char) returns (next: string, nextIsDash: bool)
    requires lastWasDash == EndsWithDash(text)
    ensures next == Pushed(text, c) && nextIsDash == EndsWithDash(next)
  {
    next, nextIsDash := text, lastWasDash;
    if Digit(c) || Lower(c) || Upper(c) {
      next, nextIsDash := text + [ToLower(c)], false;
    } else if c == '_' {
      next, nextIsDash := text + [c], false;
    } else if c == '-' || Whitespace(c) {
      if text != [] && !lastWasDash {
        next, nextIsDash := text + ['-'], true;
      }
    }
  }

  method PushAll(text: string) returns (normalized: string)
    ensures normalized == Pending(text)
  {
    normalized := [];
    var lastWasDash := false;
    for i := 0 to |text|
      invariant normalized == Pending(text[..i])
      invariant lastWasDash == EndsWithDash(normalized)
    {
      assert text[..i + 1] == text[..i] + [text[i]];
      PendingStep(text[..i], text[i]);
      normalized, lastWasDash := Push(normalized, lastWasDash, text[i]);
    }
    assert text[..|text|] == text;
  }

  method NormalizeChannelName(value: string) returns (normalized: string)
    ensures normalized == Name(value)
  {
    var text := TrimEnd(TrimStart(value));
    TrimStartKeepsName(value);
    TrimEndKeepsName(TrimStart(value));
    normalized := PushAll(text);
    PendingWithoutDash(text);
    NameEndsInWord(text);
    while EndsWithDash(normalized)
      invariant normalized == Pending(text) || normalized == Name(text)
      decreases |normalized|
    {
      normalized := normalized[..|normalized| - 1];
    }
  }

  // ----- What every name looks like ---------------------------------------------------------------

  lemma PushedIsPrefix(text: string, c: char)
    requires Prefix(text)
    ensures Prefix(Pushed(text, c)) && |Pushed(text, c)| <= |text| + 1
  {
    var next := Pushed(text, c);
    forall i | 0 <= i < |next| - 1 ensures next[i] != '-' || next[i + 1] != '-' {
      if i == |text| - 1 {
        assert text[i] == next[i];
      }
    }
  }

  lemma {:induction false} PendingIsPrefix(s: string)
    ensures Prefix(Pending(s)) && |Pending(s)| <= |s|
  {
    if s != [] {
      var before := s[..|s| - 1];
      PendingIsPrefix(before);
      PushedIsPrefix(Pending(before), s[|s| - 1]);
      PendingStep(before, s[|s| - 1]);
      assert s == before + [s[|s| - 1]];
    }
  }

  lemma {:induction false} PrefixIsPending(s: string)
    requires Prefix(s)
    ensures Pending(s) == s
  {
    if s != [] {
      var before, c := s[..|s| - 1], s[|s| - 1];
      assert s == before + [c];
      PrefixIsPushed(before, c);
      PrefixIsPending(before);
      PendingStep(before, c);
    }
  }

  lemma PrefixIsPushed(before: string, c: char)
    requires Prefix(before + [c])
    ensures Prefix(before) && Pushed(before, c) == before + [c]
  {
    var s := before + [c];
    assert forall i :: 0 <= i < |before| ==> before[i] == s[i];
    assert s[|before|] == c;
  }

  /** Every result is well formed and no longer than what was typed, and the well-formed
      names are exactly the ones left unchanged; so normalising twice changes nothing. */
  lemma NamesAreTheFixedPoints(s: string)
    ensures WellFormed(Name(s)) && |Name(s)| <= |s|
    ensures Name(s) == s <==> WellFormed(s)
    ensures Name(Name(s)) == Name(s)
  {
    NameIsWellFormed(s);
    if WellFormed(s) {
      WellFormedIsKept(s);
    }
    WellFormedIsKept(Name(s));
  }

  lemma NameIsWellFormed(s: string)
    ensures WellFormed(Name(s)) && |Name(s)| <= |s|
  {
    PendingIsPrefix(s);
    PendingWithoutDash(s);
    NameEndsInWord(s);
  }

  lemma WellFormedIsKept(s: string)
    requires WellFormed(s)
    ensures Name(s) == s
  {
    PrefixIsPending(s);
    PendingWithoutDash(s);
  }

  // ----- No letter is lost or moved ---------------------------------------------------------------

  function LetterOf(c: char): string {
    if 'A' <= c <= 'Z' then [(c as int + 32) as char]
    else if 'a' <= c <= 'z' || '0' <= c <= '9' || c == '_' then [c]
    else []
  }

  /** The ASCII letters, digits and underscores of a text, in order, capitals as their small
      letters. */
  function Letters(s: string): string { if s == [] then [] else Letters(s[..|s| - 1]) + LetterOf(s[|s| - 1]) }

  lemma {:induction false} LettersOfSnoc(s: string, c: char)
    ensures Letters(s + [c]) == Letters(s) + LetterOf(c)
  {
    assert (s + [c])[..|s|] == s;
  }

  lemma PushedKeepsLetters(text: string, c: char)
    ensures Letters(Pushed(text, c)) == Letters(text) + LetterOf(c)
  {
    if Kept(c) {
      LettersOfSnoc(text, ToLower(c));
    } else if Separates(c) && text != [] && !EndsWithDash(text) {
      LettersOfSnoc(text, '-');
    }
  }

  lemma {:induction false} PendingKeepsLetters(s: string)
    ensures Letters(Pending(s)) == Letters(s)
  {
    if s == [] {
      assert Pending(s) == [];
    } else {
      var before, c := s[..|s| - 1], s[|s| - 1];
      PendingKeepsLetters(before);
      PendingStep(before, c);
      PushedKeepsLetters(Pending(before), c);
      assert s == before + [c];
    }
  }

  /** A name keeps every letter, digit and underscore that was typed, in order, capitals made
      small, and adds nothing but dashes. */
  lemma {:induction false} NameKeepsLetters(s: string)
    ensures Letters(Name(s)) == Letters(s)
  {
    PendingKeepsLetters(s);
    PendingWithoutDash(s);
    if EndsWithDash(Pending(s)) {
      LettersOfSnoc(Name(s), '-');
      assert Pending(s) == Name(s) + ['-'];
    }
  }
}
