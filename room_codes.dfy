/**
 * Room codes (utils/roomCodeGenerator.js): three groups of lower-case letters
 * joined by hyphens. The validator admits groups of 3, 4-5 and 3-5 letters;
 * the generator always produces 3, 4 and 3.
 */
module RoomCodes {
  import Js
  import Seqs

  const Alphabet: string := "abcdefghijklmnopqrstuvwxyz"

  predicate IsLower(c: char) { 'a' <= c <= 'z' }

  predicate AllLower(s: string) { forall i :: 0 <= i < |s| ==> IsLower(s[i]) }

  /** The group lengths and letters `[a-z]{3}`, `[a-z]{4,5}`, `[a-z]{3,5}` admit. */
  predicate GroupsOk(a: string, b: string, c: string) {
    |a| == 3 && 4 <= |b| <= 5 && 3 <= |c| <= 5 && AllLower(a) && AllLower(b) && AllLower(c)
  }

  function Join(a: string, b: string, c: string): string {
    a + "-" + b + "-" + c
  }

  /** `t` is a middle group of `k` letters, a hyphen, and a last group of 3 to 5 letters. */
  predicate MiddleThenLast(t: string, k: nat) {
    |t| > k && AllLower(t[..k]) && t[k] == '-' && 3 <= |t| - k - 1 <= 5 && AllLower(t[k + 1..])
  }

  /** `/^[a-z]{3}-[a-z]{4,5}-[a-z]{3,5}$/.test(code)`, read left to right. */
  predicate IsValidRoomCode(code: string)
    ensures IsValidRoomCode(code) ==> 12 <= |code| <= 15 && code[3] == '-' && '-' in code[8..10]
  {
    |code| >= 4 && AllLower(code[..3]) && code[3] == '-'
    && (MiddleThenLast(code[4..], 4) || MiddleThenLast(code[4..], 5))
  }

  /** The pattern as a language: the codes that are three admissible groups joined by hyphens. */
  ghost predicate InPatternLanguage(code: string) {
    exists a, b, c :: GroupsOk(a, b, c) && code == Join(a, b, c)
  }

  /** The three groups of an accepted code. */
  function Groups(code: string): (g: (string, string, string))
    requires IsValidRoomCode(code)
    ensures GroupsOk(g.0, g.1, g.2) && code == Join(g.0, g.1, g.2)
  {
    var k := if MiddleThenLast(code[4..], 4) then 4 else 5;
    var g := (code[..3], code[4..4 + k], code[5 + k..]);
    assert code[4..][..k] == g.1 && code[4..][k + 1..] == g.2;
    assert code == Join(g.0, g.1, g.2);
    g
  }

  /** Every string of three admissible groups is accepted. */
  lemma AcceptsJoin(a: string, b: string, c: string)
    requires GroupsOk(a, b, c)
    ensures IsValidRoomCode(Join(a, b, c))
  {
    var code := Join(a, b, c);
    var t := code[4..];
    assert code[..3] == a && code[3] == '-';
    assert t == b + "-" + c;
    assert t[..|b|] == b && t[|b|] == '-' && t[|b| + 1..] == c;
  }

  /** The matcher accepts exactly the pattern's language. */
  lemma ValidIffInLanguage(code: string)
    ensures IsValidRoomCode(code) <==> InPatternLanguage(code)
  {
    if IsValidRoomCode(code) {
      var g := Groups(code);
      assert GroupsOk(g.0, g.1, g.2) && code == Join(g.0, g.1, g.2);
    }
    if InPatternLanguage(code) {
      var a, b, c :| GroupsOk(a, b, c) && code == Join(a, b, c);
      AcceptsJoin(a, b, c);
    }
  }

  /** An accepted code consists of lower-case letters and hyphens only. */
  lemma ValidChars(code: string)
    ensures IsValidRoomCode(code) ==> forall i :: 0 <= i < |code| ==> IsLower(code[i]) || code[i] == '-'
  {
    if IsValidRoomCode(code) {
      var g := Groups(code);
      var a, b, c := g.0, g.1, g.2;
      forall i | 0 <= i < |code| ensures IsLower(code[i]) || code[i] == '-' {
        if i < 3 {
          assert code[i] == a[i];
        } else if 3 < i < 4 + |b| {
          assert code[i] == b[i - 4];
        } else if i > 4 + |b| {
          assert code[i] == c[i - 5 - |b|];
        }
      }
    }
  }

  /** Anchoring: a code holding any character other than a lower-case letter or a hyphen is rejected. */
  lemma RejectsForeignChar(code: string, i: nat)
    requires i < |code| && !IsLower(code[i]) && code[i] != '-'
    ensures !IsValidRoomCode(code)
  {
    ValidChars(code);
  }

  /** An accepted code is 12 to 15 characters long and holds exactly two hyphens. */
  lemma ValidShape(code: string)
    requires IsValidRoomCode(code)
    ensures 12 <= |code| <= 15
    ensures Seqs.Count(code, (ch: char) => ch == '-') == 2
  {
    var g := Groups(code);
    var p := (ch: char) => ch == '-';
    NoHyphen(g.0, p);
    NoHyphen(g.1, p);
    NoHyphen(g.2, p);
    Seqs.CountAppend(g.0 + "-" + g.1 + "-", g.2, p);
    Seqs.CountAppend(g.0 + "-" + g.1, "-", p);
    Seqs.CountAppend(g.0 + "-", g.1, p);
    Seqs.CountAppend(g.0, "-", p);
  }

  lemma {:induction false} NoHyphen(s: string, p: char -> bool)
    requires AllLower(s)
    requires forall ch :: p(ch) <==> ch == '-'
    ensures Seqs.Count(s, p) == 0
  {
    Seqs.CountZero(s, p);
  }

  /**
   * A payload value that is neither a string nor an array never passes: its
   * string form is not a room code. (An array reads as its elements joined
   * with commas, so `["abc-defg-hij"]` does pass.)
   */
  lemma NonStringNeverValid(v: Js.Value)
    ensures !v.Str? && !v.Arr? ==> !IsValidRoomCode(Js.ToString(v))
  {
    var s := Js.ToString(v);
    match v
    case Num(n) => RejectsForeignChar(s, |s| - 1);
    case Object => RejectsForeignChar(s, 0);
    case _ =>
  }

  /** The letters a sequence of picks in [0, 26) selects. */
  function Letters(picks: seq<int>): (s: string)
    requires forall i :: 0 <= i < |picks| ==> 0 <= picks[i] < 26
    ensures |s| == |picks| && AllLower(s)
  {
    AlphabetIsLower();
    seq(|picks|, i requires 0 <= i < |picks| => Alphabet[picks[i]])
  }

  lemma AlphabetIsLower()
    ensures |Alphabet| == 26 && AllLower(Alphabet)
  {
  }

  /** `randomString(length)`: one letter per pick, where each pick stands for
      `Math.floor(Math.random() * 26)`. */
  method RandomString(picks: seq<int>) returns (s: string)
    requires forall i :: 0 <= i < |picks| ==> 0 <= picks[i] < 26
    ensures s == Letters(picks)
  {
    s := "";
    for i := 0 to |picks|
      invariant |s| == i
      invariant forall j :: 0 <= j < i ==> s[j] == Alphabet[picks[j]]
    {
      s := s + [Alphabet[picks[i]]];
    }
  }

  /** `generateRoomCode()`: groups of 3, 4 and 3 letters drawn by ten picks. */
  method GenerateRoomCode(picks: seq<int>) returns (code: string)
    requires |picks| == 10
    requires forall i :: 0 <= i < |picks| ==> 0 <= picks[i] < 26
    ensures code == Join(Letters(picks[..3]), Letters(picks[3..7]), Letters(picks[7..]))
    ensures |code| == 12 && AllLower(code[..3]) && AllLower(code[4..8]) && AllLower(code[9..])
    ensures code[3] == '-' && code[8] == '-'
    ensures IsValidRoomCode(code)
  {
    var part1 := RandomString(picks[..3]);
    var part2 := RandomString(picks[3..7]);
    var part3 := RandomString(picks[7..]);
    code := part1 + "-" + part2 + "-" + part3;
    assert code[..3] == part1 && code[4..8] == part2 && code[9..] == part3;
    AcceptsJoin(part1, part2, part3);
  }
}
