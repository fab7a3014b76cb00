/** The registration (RAB) grammar of AirCraft.RabValidation. */
module AirCraftRules {

  /** ToLower, restricted to ASCII letters. */
  function LowerChar(c: char): (r: char)
    ensures 'A' <= c <= 'Z' ==> 'a' <= r <= 'z' && r as int == c as int + 32
    ensures !('A' <= c <= 'Z') ==> r == c
  {
    if 'A' <= c <= 'Z' then (c as int - 'A' as int + 'a' as int) as char else c
  }

  function Lower(s: string): (r: string)
    ensures |r| == |s|
    ensures forall i :: 0 <= i < |s| ==> r[i] == LowerChar(s[i])
  {
    seq(|s|, i requires 0 <= i < |s| => LowerChar(s[i]))
  }

  /** The letters allowed in the second position. */
  const AcceptedLetters: seq<char> := ['p', 'r', 's', 't', 'u']

  /** The three-letter tails that are refused. */
  const UnacceptedPrefixes: seq<string> :=
    ["sos", "xxx", "pan", "ttt", "vfr", "ifr", "vmc", "imc", "tnc", "pqp", "pnc"]

  /**
   * RabValidation: the lowercased code is split into its first two characters
   * and the three after them, and the rules are tried in the order the source
   * tries them; the first that fires rejects. Only characters 0 to 4 are read.
   */
  predicate RabValidation(rab: string)
    requires |rab| >= 5
    ensures RabValidation(rab) <==>
      var low := Lower(rab);
      low[0] == 'p' && low[1] in AcceptedLetters && low[2] != 'q' && low[3] != 'w'
      && low[2..5] !in UnacceptedPrefixes && low != "putas"
  {
    var low := Lower(rab);
    var pt1 := low[0..2];
    var pt2 := low[2..5];
    if pt1[0] != 'p' then false
    else if pt1[1] !in AcceptedLetters then false
    else if pt2[0] == 'q' || pt2[1] == 'w' then false
    else if pt2 in UnacceptedPrefixes then false
    else if low == "putas" then false
    else true
  }

  /** Lowercasing twice is lowercasing once. */
  lemma LowerIdempotent(s: string)
    ensures Lower(Lower(s)) == Lower(s)
  {
    forall i | 0 <= i < |s| ensures Lower(Lower(s))[i] == Lower(s)[i] {
    }
  }

  /** The grammar does not see case: a code and its lowercase form are accepted alike. */
  lemma RabValidationCaseInsensitive(s: string)
    requires |s| >= 5
    ensures RabValidation(s) == RabValidation(Lower(s))
  {
    LowerIdempotent(s);
    var low := Lower(s);
    assert Lower(low) == low;
  }

  /**
   * Each rule rejects on its own: whatever the other characters are, a code
   * is refused when its lowercased form breaks any one of the five rules.
   */
  lemma RabRejections(s: string)
    requires |s| >= 5
    ensures Lower(s)[0] != 'p' ==> !RabValidation(s)
    ensures Lower(s)[1] !in AcceptedLetters ==> !RabValidation(s)
    ensures Lower(s)[2] == 'q' || Lower(s)[3] == 'w' ==> !RabValidation(s)
    ensures Lower(s)[2..5] in UnacceptedPrefixes ==> !RabValidation(s)
    ensures Lower(s) == "putas" ==> !RabValidation(s)
  {
  }

  /** A code that breaks none of the five rules is accepted. */
  lemma RabAcceptance(s: string)
    requires |s| >= 5
    requires Lower(s)[0] == 'p' && Lower(s)[1] in AcceptedLetters
    requires Lower(s)[2] != 'q' && Lower(s)[3] != 'w'
    requires Lower(s)[2..5] !in UnacceptedPrefixes && Lower(s) != "putas"
    ensures RabValidation(s)
  {
  }

  /**
   * The banned literal is caught only by its own rule: "putas" passes the
   * first four, so without the last test it would be accepted.
   */
  lemma BannedLiteralNeedsItsOwnRule()
    ensures var low := Lower("PUTAS");
      low == "putas" && low[0] == 'p' && low[1] in AcceptedLetters
      && low[2] != 'q' && low[3] != 'w' && low[2..5] !in UnacceptedPrefixes
    ensures !RabValidation("PUTAS")
  {
    var low := Lower("PUTAS");
    assert low == "putas";
    assert low[2..5] == "tas";
  }
}
