/** Initials of a display name, as the header avatar and the leaderboard
    compute them: `name.split(" ").map(n => n[0]).join("").toUpperCase()`,
    which the leaderboard further cuts with `.slice(0, 2)`. Upper-casing is
    restricted to ASCII letters. */
module NameInitials {
  import opened Common

  /** `s.split(" ")`: the pieces between single spaces. The empty string
      gives [""], and two adjacent spaces give an empty piece. */
  function Split(s: string): (tokens: seq<string>)
    ensures |tokens| >= 1
    ensures forall i :: 0 <= i < |tokens| ==> ' ' !in tokens[i]
  {
    if s == [] then [""]
    else
      var rest := Split(s[1..]);
      if s[0] == ' ' then [""] + rest
      else [[s[0]] + rest[0]] + rest[1..]
  }

  /** `tokens.join(" ")`, the inverse of `Split`. */
  function JoinSpaces(tokens: seq<string>): string
    requires |tokens| >= 1
  {
    if |tokens| == 1 then tokens[0] else tokens[0] + " " + JoinSpaces(tokens[1..])
  }

  /** Splitting loses nothing: joining the pieces with spaces gives the name back. */
  lemma {:induction false} SplitJoinRoundTrip(s: string)
    ensures JoinSpaces(Split(s)) == s
  {
    if s != [] {
      var rest := Split(s[1..]);
      SplitJoinRoundTrip(s[1..]);
      assert s == [s[0]] + s[1..];
      if s[0] != ' ' {
        var tokens := Split(s);
        assert tokens[0] == [s[0]] + rest[0];
        if |rest| > 1 {
          assert tokens[1..] == rest[1..];
        }
      }
    }
  }

  /** `.map(n => n[0]).join("")`: an empty piece gives `undefined`, which
      joins as the empty string. */
  function FirstLetters(tokens: seq<string>): (r: string)
    ensures |r| <= |tokens|
  {
    if tokens == [] then []
    else (if tokens[0] == [] then [] else [tokens[0][0]]) + FirstLetters(tokens[1..])
  }

  function UpperAscii(c: char): char
  {
    if 'a' <= c <= 'z' then (c as int - 32) as char else c
  }

  /** `toUpperCase()` on ASCII text. */
  function ToUpper(s: string): (r: string)
    ensures |r| == |s|
    ensures forall i :: 0 <= i < |s| ==> r[i] == UpperAscii(s[i])
  {
    seq(|s|, i requires 0 <= i < |s| => UpperAscii(s[i]))
  }

  /** The untruncated initials shown in the dashboard header. */
  function Initials(name: string): (r: string)
    ensures |r| <= |Split(name)|
  {
    ToUpper(FirstLetters(Split(name)))
  }

  /** The leaderboard's `avatar`: the initials cut to two characters. */
  function Avatar(name: string): (r: string)
    ensures |r| == Min(2, |Initials(name)|)
    ensures r <= Initials(name)
  {
    var full := Initials(name);
    full[..Min(2, |full|)]
  }

  /** Reference definition: the characters of `s` that begin a word, that is
      non-space characters at the very start (when `atStart`) or right after
      a space. */
  function WordStarts(s: string, atStart: bool): string
  {
    if s == [] then []
    else (if atStart && s[0] != ' ' then [s[0]] else []) + WordStarts(s[1..], s[0] == ' ')
  }

  lemma {:induction false} FirstLettersAreWordStarts(s: string)
    ensures FirstLetters(Split(s)) == WordStarts(s, true)
    ensures FirstLetters(Split(s)[1..]) == WordStarts(s, false)
  {
    if s != [] {
      FirstLettersAreWordStarts(s[1..]);
      var rest := Split(s[1..]);
      var tokens := Split(s);
      if s[0] == ' ' {
        assert tokens == [""] + rest;
        assert tokens[1..] == rest;
      } else {
        assert tokens == [[s[0]] + rest[0]] + rest[1..];
        assert tokens[1..] == rest[1..];
        assert rest == [rest[0]] + rest[1..];
      }
    }
  }

  /** The initials are exactly the upper-cased word-start characters. */
  lemma InitialsAreWordStarts(name: string)
    ensures Initials(name) == ToUpper(WordStarts(name, true))
  {
    FirstLettersAreWordStarts(name);
  }

  /** A word without spaces contributes its first letter, if it starts a word, and nothing else. */
  lemma {:induction false} WordStartsOverWord(w: string, rest: string, atStart: bool)
    requires w != [] && ' ' !in w
    ensures WordStarts(w + rest, atStart) == (if atStart then [w[0]] else []) + WordStarts(rest, false)
  {
    var s := w + rest;
    assert s[0] == w[0] && w[0] != ' ';
    assert s[1..] == w[1..] + rest;
    var head := if atStart then [w[0]] else [];
    assert WordStarts(s, atStart) == head + WordStarts(w[1..] + rest, false);
    if |w| == 1 {
      assert w[1..] + rest == rest;
    } else {
      assert ' ' !in w[1..] by {
        forall i | 0 <= i < |w[1..]| ensures w[1..][i] != ' ' {
          assert w[1..][i] == w[i + 1];
        }
      }
      WordStartsOverWord(w[1..], rest, false);
    }
  }

  /** The first letter of each word. */
  function Heads(words: seq<string>): (r: string)
    requires forall i :: 0 <= i < |words| ==> words[i] != ""
  {
    seq(|words|, i requires 0 <= i < |words| => words[i][0])
  }

  /** A name made of non-empty words separated by single spaces has one
      initial per word: the upper-cased first letter of that word. */
  lemma {:induction false} InitialsOfWords(words: seq<string>)
    requires |words| >= 1
    requires forall i :: 0 <= i < |words| ==> words[i] != "" && ' ' !in words[i]
    ensures Initials(JoinSpaces(words)) == ToUpper(Heads(words))
  {
    WordStartsOfWords(words);
    InitialsAreWordStarts(JoinSpaces(words));
  }

  lemma {:induction false} WordStartsOfWords(words: seq<string>)
    requires |words| >= 1
    requires forall i :: 0 <= i < |words| ==> words[i] != "" && ' ' !in words[i]
    ensures WordStarts(JoinSpaces(words), true) == Heads(words)
  {
    if |words| == 1 {
      assert words[0] + "" == words[0];
      WordStartsOverWord(words[0], "", true);
    } else {
      var tail := JoinSpaces(words[1..]);
      WordStartsOfWords(words[1..]);
      assert JoinSpaces(words) == words[0] + (" " + tail);
      WordStartsOverWord(words[0], " " + tail, true);
      assert (" " + tail)[1..] == tail;
      assert Heads(words) == [words[0][0]] + Heads(words[1..]);
    }
  }

  /** Worked examples for the leaderboard avatar. */
  lemma AvatarOfTwoWords()
    ensures Avatar("Alice Johnson") == "AJ"
  {
    var words := ["Alice", "Johnson"];
    assert Heads(words) == "AJ";
    InitialsOfWords(words);
    assert JoinSpaces(words) == "Alice Johnson";
    assert ToUpper("AJ") == "AJ";
  }

  lemma AvatarOfOneWord()
    ensures Avatar("Bob") == "B"
  {
    InitialsOfWords(["Bob"]);
  }

  lemma AvatarOfEmptyName()
    ensures Avatar("") == "" && Initials("") == ""
  {
  }

  /** The header keeps every initial, so a three-word name shows three letters
      where the leaderboard shows two. */
  lemma HeaderInitialsExample()
    ensures Initials("mary ann lee") == "MAL" && Avatar("mary ann lee") == "MA"
  {
    var words := ["mary", "ann", "lee"];
    assert Heads(words) == "mal";
    InitialsOfWords(words);
    assert JoinSpaces(words[2..]) == "lee";
    assert JoinSpaces(words[1..]) == "ann lee";
    assert JoinSpaces(words) == "mary ann lee";
    assert ToUpper("mal") == "MAL";
    assert "MAL"[..Min(2, 3)] == "MA";
  }
}
