/** Byte-string helpers: the parts of Go's `strings` package the rule engine relies on. */
module Text {

  predicate HasPrefix(s: string, prefix: string) {
    prefix <= s
  }

  predicate HasSuffix(s: string, suffix: string) {
    |suffix| <= |s| && s[|s| - |suffix|..] == suffix
  }

  /** ASCII lower-casing of one character. */
  function Lower(c: char): char {
    if 'A' <= c <= 'Z' then c + 32 as char else c
  }

  function ToLower(s: string): (r: string)
    ensures |r| == |s|
    ensures forall i :: 0 <= i < |s| ==> r[i] == Lower(s[i])
  {
    seq(|s|, i requires 0 <= i < |s| => Lower(s[i]))
  }

  /** Drops one trailing dot. */
  function TrimDot(s: string): string {
    if HasSuffix(s, ".") then s[..|s| - 1] else s
  }

  /** What `Check`, `GetRedirect`, `SetRedirect` and `RemoveRedirect` do to a domain first. */
  function Normalize(domain: string): string {
    ToLower(TrimDot(domain))
  }

  /** A string starts or ends with exactly what something can be added to. */
  lemma AffixIff(s: string, part: string)
    ensures HasPrefix(s, part) <==> exists rest: string :: s == part + rest
    ensures HasSuffix(s, part) <==> exists rest: string :: s == rest + part
  {
    if HasPrefix(s, part) {
      assert s == part + s[|part|..];
    }
    if HasSuffix(s, part) {
      assert s == s[..|s| - |part|] + part;
    }
    forall rest: string ensures HasSuffix(rest + part, part) {
      SuffixOfConcat(rest, part);
    }
  }

  /** Lower-casing takes the i-th large letter to the i-th small one and leaves everything else alone. */
  lemma LowerIsCase(i: nat, c: char)
    requires i < 26
    ensures Lower('A' + i as char) == 'a' + i as char
    ensures c < 'A' || 'Z' < c ==> Lower(c) == c
  {
  }

  /** Normalising lower-cases each character and drops one trailing dot, no more. */
  lemma NormalizeDropsOneDot(s: string)
    ensures Normalize(s + ".") == ToLower(s)
    ensures !HasSuffix(s, ".") ==> Normalize(s) == ToLower(s)
  {
    assert (s + ".")[|s|..] == ".";
  }

  /** The labels of a string that starts with c and goes on with a string of the given labels. */
  function Prepend(c: char, rest: seq<string>): (labels: seq<string>)
    requires |rest| >= 1
    ensures |labels| == |rest| + (if c == '.' then 1 else 0)
  {
    if c == '.' then [""] + rest else [[c] + rest[0]] + rest[1..]
  }

  /** The dot-separated labels of s; the empty string has one empty label. */
  function Split(s: string): (labels: seq<string>)
    ensures |labels| >= 1
  {
    if s == "" then [""] else Prepend(s[0], Split(s[1..]))
  }

  function Join(labels: seq<string>): string
    requires |labels| >= 1
  {
    if |labels| == 1 then labels[0] else labels[0] + "." + Join(labels[1..])
  }

  function Dots(s: string): nat {
    if s == "" then 0 else (if s[0] == '.' then 1 else 0) + Dots(s[1..])
  }

  /** Concatenation around a dot, regrouped. */
  lemma Regroup(a: string, b: string, c: string)
    ensures a + b + "." + c == a + (b + "." + c)
    ensures a + "." + (b + "." + c) == (a + "." + b) + "." + c
    ensures a + "." + c == a + ("." + c)
  {
  }

  lemma SuffixOfConcat(a: string, b: string)
    ensures HasSuffix(a + b, b)
  {
  }

  lemma JoinPrepend(c: char, rest: seq<string>)
    requires |rest| >= 1
    ensures Join(Prepend(c, rest)) == [c] + Join(rest)
  {
    var labels := Prepend(c, rest);
    if c == '.' {
      assert labels[1..] == rest;
    } else if |rest| > 1 {
      assert labels[1..] == rest[1..];
      Regroup([c], rest[0], Join(rest[1..]));
    }
  }

  lemma {:induction false} JoinSplit(s: string)
    ensures Join(Split(s)) == s
  {
    if s != "" {
      JoinPrepend(s[0], Split(s[1..]));
      JoinSplit(s[1..]);
      assert [s[0]] + s[1..] == s;
    }
  }

  lemma PrependConcat(c: char, xs: seq<string>, ys: seq<string>)
    requires |xs| >= 1
    ensures Prepend(c, xs + ys) == Prepend(c, xs) + ys
  {
    if c != '.' {
      assert (xs + ys)[1..] == xs[1..] + ys;
    }
  }

  /** Splitting around a dot splits the two sides independently. */
  lemma {:induction false} SplitConcat(a: string, s: string)
    ensures Split(a + "." + s) == Split(a) + Split(s)
  {
    var whole := a + "." + s;
    if a == "" {
      assert whole[0] == '.' && whole[1..] == s;
    } else {
      assert whole[0] == a[0] && whole[1..] == a[1..] + "." + s;
      SplitConcat(a[1..], s);
      PrependConcat(a[0], Split(a[1..]), Split(s));
    }
  }

  lemma {:induction false} JoinConcat(xs: seq<string>, ys: seq<string>)
    requires |xs| >= 1 && |ys| >= 1
    ensures Join(xs + ys) == Join(xs) + "." + Join(ys)
  {
    var zs := xs + ys;
    if |xs| == 1 {
      assert zs[1..] == ys;
    } else {
      assert zs[0] == xs[0] && zs[1..] == xs[1..] + ys;
      JoinConcat(xs[1..], ys);
      Regroup(xs[0], Join(xs[1..]), Join(ys));
    }
  }

  lemma {:induction false} JoinShortens(labels: seq<string>, i: nat, j: nat)
    requires i < j < |labels|
    ensures |Join(labels[j..])| < |Join(labels[i..])|
    decreases j - i
  {
    assert labels[i..][1..] == labels[i + 1..];
    if i + 1 < j {
      JoinShortens(labels, i + 1, j);
    }
  }

  lemma {:induction false} LabelsAreDotsPlusOne(s: string)
    ensures |Split(s)| == Dots(s) + 1
  {
    if s != "" {
      LabelsAreDotsPlusOne(s[1..]);
    }
  }

  lemma PrependDrop(c: char, rest: seq<string>, i: nat)
    requires |rest| >= 1 && 1 <= i < |Prepend(c, rest)|
    ensures Prepend(c, rest)[i..] == rest[if c == '.' then i - 1 else i..]
  {
  }

  /** A block of trailing labels of a string survives joining and splitting again. */
  lemma {:induction false} SplitJoin(s: string, i: nat)
    requires i < |Split(s)|
    ensures Split(Join(Split(s)[i..])) == Split(s)[i..]
  {
    if i == 0 {
      JoinSplit(s);
      assert Split(s)[0..] == Split(s);
    } else if s != "" {
      PrependDrop(s[0], Split(s[1..]), i);
      SplitJoin(s[1..], if s[0] == '.' then i - 1 else i);
    }
  }

  lemma JoinDrop(labels: seq<string>, i: nat)
    requires 1 <= i < |labels|
    ensures HasSuffix(Join(labels), "." + Join(labels[i..]))
  {
    JoinConcat(labels[..i], labels[i..]);
    assert labels[..i] + labels[i..] == labels;
    var a, t := Join(labels[..i]), Join(labels[i..]);
    Regroup(a, "", t);
    SuffixOfConcat(a, "." + t);
  }

  /** Dropping the first labels of s leaves a suffix of s that starts right after a dot. */
  lemma LabelSuffix(s: string, i: nat)
    requires 1 <= i < |Split(s)|
    ensures HasSuffix(s, "." + Join(Split(s)[i..]))
    ensures Split(Join(Split(s)[i..])) == Split(s)[i..]
  {
    JoinDrop(Split(s), i);
    JoinSplit(s);
    SplitJoin(s, i);
  }

  /** labels ends with the non-empty block tail. */
  predicate EndsWith(labels: seq<string>, tail: seq<string>) {
    |tail| <= |labels| && labels[|labels| - |tail|..] == tail
  }

  /** Conversely, a suffix that starts right after a dot is a block of trailing labels. */
  lemma SuffixLabels(s: string, t: string)
    requires HasSuffix(s, "." + t)
    ensures |Split(t)| < |Split(s)| && EndsWith(Split(s), Split(t))
  {
    var a := s[..|s| - |t| - 1];
    assert s == a + "." + t;
    SplitConcat(a, t);
  }

  lemma NoDotIsOneLabel(s: string)
    requires '.' !in s
    ensures Split(s) == [s]
  {
    if s != "" {
      assert s[0] != '.' && '.' !in s[1..];
      NoDotIsOneLabel(s[1..]);
      var rest := [s[1..]];
      assert Prepend(s[0], rest) == [[s[0]] + s[1..]] + rest[1..];
      assert [s[0]] + s[1..] == s && rest[1..] == [];
    }
  }

  lemma EndsInDot(s: string)
    ensures HasSuffix(s, ".") <==> s != "" && s[|s| - 1] == '.'
    ensures HasSuffix(s, "..") <==> |s| >= 2 && s[|s| - 1] == '.' && s[|s| - 2] == '.'
  {
    if |s| >= 1 { assert s[|s| - 1..] == [s[|s| - 1]]; }
    if |s| >= 2 { assert s[|s| - 2..] == [s[|s| - 2], s[|s| - 1]]; }
  }

  lemma StillEndsInDot(domain: string)
    ensures HasSuffix(Normalize(domain), ".") <==> HasSuffix(domain, "..")
  {
    var trimmed := TrimDot(domain);
    var name := ToLower(trimmed);
    EndsInDot(domain);
    EndsInDot(name);
    assert trimmed != "" ==> name[|name| - 1] == Lower(trimmed[|trimmed| - 1]);
    assert HasSuffix(domain, ".") ==> trimmed == domain[..|domain| - 1];
  }

  lemma AlreadyLower(s: string)
    requires forall i :: 0 <= i < |s| ==> Lower(s[i]) == s[i]
    ensures ToLower(s) == s
  {
  }

  lemma LowerTwice(s: string)
    ensures ToLower(ToLower(s)) == ToLower(s)
  {
  }
}
