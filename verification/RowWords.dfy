/** What the scanner's tests of a line mean: the line is put together from these pieces. */
module RowWords {
  import opened RowDiff

  lemma ContainsMeans(s: string, sub: string)
    ensures Contains(s, sub) <==> exists a: string, b: string :: s == a + sub + b
  {
    if Contains(s, sub) {
      var i: nat :| i <= |s| && HasAt(s, i, sub);
      assert s == s[..i] + sub + s[i + |sub|..];
    }
    if a: string, b: string :| s == a + sub + b {
      assert s[|a|..|a| + |sub|] == sub;
      assert HasAt(s, |a|, sub);
    }
  }

  predicate PlanWord(w: string) { w == "PROJECT" || w == "INSERT" || w == "UPDATE" || w == "DELETE" || w == "MOVE" }

  lemma OpenedWord(s: string, w: string, sub: string)
    requires sub == w + " ("
    ensures Contains(s, sub) <==> exists a: string, b: string :: s == a + w + " (" + b
  {
    ContainsMeans(s, sub);
    if a: string, b: string :| s == a + sub + b { assert s == a + w + " (" + b; }
    if a: string, b: string :| s == a + w + " (" + b { assert s == a + sub + b; }
  }

  /** A plan starts with one of five words and an opening parenthesis after a space. */
  lemma PlanStartsMeans(s: string)
    ensures PlanStarts(s) <==> exists a: string, w: string, b: string :: PlanWord(w) && s == a + w + " (" + b
  {
    assert "PROJECT (" == "PROJECT" + " (" && "INSERT (" == "INSERT" + " (" && "UPDATE (" == "UPDATE" + " ("
           && "DELETE (" == "DELETE" + " (" && "MOVE (" == "MOVE" + " (";
    OpenedWord(s, "PROJECT", "PROJECT (");
    OpenedWord(s, "INSERT", "INSERT (");
    OpenedWord(s, "UPDATE", "UPDATE (");
    OpenedWord(s, "DELETE", "DELETE (");
    OpenedWord(s, "MOVE", "MOVE (");
  }

  /** A rule is ten hyphens and anything; a graph line starts with a bar. */
  lemma RuleAndGraphMean(s: string)
    ensures IsRule(s) <==> exists rest: string :: s == "----------" + rest
    ensures IsGraph(s) <==> exists rest: string :: s == "|" + rest
  {
    if IsRule(s) { assert s == "----------" + s[10..]; }
    if rest: string :| s == "----------" + rest { assert s[..10] == "----------"; }
    if IsGraph(s) { assert s == "|" + s[1..]; }
  }

  /** The same letter, in either case. */
  predicate SameLetter(c: char, lower: char) {
    c == lower || ('a' <= lower <= 'z' && c as int + 32 == lower as int)
  }

  predicate SameLetters(s: string, lower: string) {
    |s| == |lower| && forall i :: 0 <= i < |s| ==> SameLetter(s[i], lower[i])
  }

  lemma LowerMeans(c: char, lower: char)
    requires !('A' <= lower <= 'Z')
    ensures Lower(c) == lower <==> SameLetter(c, lower)
  {
  }

  lemma LowerAllMeans(s: string, lower: string)
    requires forall i :: 0 <= i < |lower| ==> !('A' <= lower[i] <= 'Z')
    ensures LowerAll(s) == lower <==> SameLetters(s, lower)
  {
    if |s| == |lower| {
      forall i | 0 <= i < |s| ensures LowerAll(s)[i] == lower[i] <==> SameLetter(s[i], lower[i]) {
        LowerMeans(s[i], lower[i]);
      }
    }
  }

  /** A dollar sign, P or T in either case (or the bar that the character class admits), a digit and a closing bracket. */
  predicate Prompt(w: string) {
    |w| == 4 && w[0] == '$' && (SameLetter(w[1], 'p') || SameLetter(w[1], 't') || w[1] == '|') && '0' <= w[2] <= '9' && w[3] == '>'
  }

  lemma PromptAtMeans(s: string, i: nat)
    ensures PromptAt(s, i) <==> i + 4 <= |s| && Prompt(s[i..i + 4])
  {
    if i + 4 <= |s| {
      LowerMeans(s[i + 1], 'p');
      LowerMeans(s[i + 1], 't');
    }
  }

  lemma HasPromptMeans(s: string)
    ensures HasPrompt(s) <==> exists a: string, w: string, b: string :: Prompt(w) && s == a + w + b
  {
    if HasPrompt(s) {
      var i: nat :| i < |s| && PromptAt(s, i);
      PromptAtMeans(s, i);
      assert s == s[..i] + s[i..i + 4] + s[i + 4..];
    }
    if a: string, w: string, b: string :| Prompt(w) && s == a + w + b {
      assert s[|a|..|a| + 4] == w;
      PromptAtMeans(s, |a|);
    }
  }

  /** ` DESC` in either case, and a tab, a bar or a space. */
  predicate Desc(w: string) {
    |w| == 6 && SameLetters(w[..5], " desc") && (w[5] == '\t' || w[5] == '|' || w[5] == ' ')
  }

  lemma DescAtMeans(s: string, i: nat)
    ensures DescAt(s, i) <==> i + 6 <= |s| && Desc(s[i..i + 6])
    ensures IsqlAt(s, i) <==> i + 5 <= |s| && SameLetters(s[i..i + 5], "isql>")
  {
    if i + 6 <= |s| {
      assert s[i..i + 6][..5] == s[i..i + 5];
      LowerAllMeans(s[i..i + 5], " desc");
    }
    if i + 5 <= |s| { LowerAllMeans(s[i..i + 5], "isql>"); }
  }

  predicate Asks(w: string) { Prompt(w) || SameLetters(w, "isql>") }

  lemma FoundDesc(s: string, a: string, w: string, d: string, b: string)
    requires Asks(w) && Desc(d) && s == a + w + d + b
    ensures IsDesc(s)
  {
    var i, j := |a|, |a| + |w|;
    assert s[i..j] == w && s[j..j + 6] == d;
    DescAtMeans(s, j);
    PromptAtMeans(s, i);
    DescAtMeans(s, i);
  }

  ghost predicate Asked(s: string) {
    exists a: string, w: string, d: string, b: string :: Asks(w) && Desc(d) && s == a + w + d + b
  }

  lemma AskedAt(s: string, i: nat, n: nat)
    requires i + n + 6 <= |s| && Asks(s[i..i + n]) && Desc(s[i + n..i + n + 6])
    ensures Asked(s)
  {
    var a, w, d, b := s[..i], s[i..i + n], s[i + n..i + n + 6], s[i + n + 6..];
    Cut(s, i, i + n);
    Cut(s, i + n, i + n + 6);
    assert s == a + w + d + b;
  }

  lemma Cut(s: string, i: nat, j: nat)
    requires i <= j <= |s|
    ensures s[..j] == s[..i] + s[i..j] && s == s[..j] + s[j..]
  {
  }

  lemma AskedByPrompt(s: string, i: nat)
    requires PromptAt(s, i) && DescAt(s, i + 4)
    ensures Asked(s)
  {
    PromptAtMeans(s, i);
    DescAtMeans(s, i + 4);
    AskedAt(s, i, 4);
  }

  lemma AskedByIsql(s: string, i: nat)
    requires IsqlAt(s, i) && DescAt(s, i + 5)
    ensures Asked(s)
  {
    DescAtMeans(s, i);
    DescAtMeans(s, i + 5);
    AskedAt(s, i, 5);
  }

  /** A DESC line has a prompt, or the isql prompt, directly before ` DESC`. */
  lemma IsDescMeans(s: string)
    ensures IsDesc(s) <==> Asked(s)
  {
    if IsDesc(s) {
      if i: nat :| i < |s| && PromptAt(s, i) && DescAt(s, i + 4) {
        AskedByPrompt(s, i);
      } else {
        var i: nat :| i < |s| && IsqlAt(s, i) && DescAt(s, i + 5);
        AskedByIsql(s, i);
      }
    }
    if Asked(s) {
      var a: string, w: string, d: string, b: string :| Asks(w) && Desc(d) && s == a + w + d + b;
      FoundDesc(s, a, w, d, b);
    }
  }
}
