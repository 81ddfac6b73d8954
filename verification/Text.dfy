/** Text tests the queue and the decklist parser share: Unicode white space and the order of Go strings. */
module Text {

  /** The code points unicode.IsSpace accepts. */
  predicate IsSpace(c: char) {
    || '\U{0009}' <= c <= '\U{000D}'
    || c == ' '
    || c == '\U{0085}'
    || c == '\U{00A0}'
    || c == '\U{1680}'
    || '\U{2000}' <= c <= '\U{200A}'
    || c == '\U{2028}'
    || c == '\U{2029}'
    || c == '\U{202F}'
    || c == '\U{205F}'
    || c == '\U{3000}'
  }

  /** strings.TrimSpace(s) == "". */
  predicate IsBlank(s: string) {
    forall i | 0 <= i < |s| :: IsSpace(s[i])
  }

  /** Go's string order. Comparing code points agrees with comparing their UTF-8 bytes. */
  predicate Less(a: string, b: string) {
    if b == [] then false
    else if a == [] then true
    else a[0] < b[0] || (a[0] == b[0] && Less(a[1..], b[1..]))
  }

  /** The first difference, or the end of the shorter one, decides. */
  ghost predicate DecidesAt(a: string, b: string, k: nat) {
    k <= |a| && k < |b| && a[..k] == b[..k] && (k == |a| || a[k] < b[k])
  }

  ghost predicate ComesBefore(a: string, b: string) {
    exists k: nat :: DecidesAt(a, b, k)
  }

  lemma {:induction false} LessMeans(a: string, b: string)
    ensures Less(a, b) <==> ComesBefore(a, b)
  {
    if b == [] {
    } else if a == [] {
      assert DecidesAt(a, b, 0);
    } else if a[0] == b[0] {
      LessMeans(a[1..], b[1..]);
      forall k: nat ensures DecidesAt(a[1..], b[1..], k) <==> DecidesAt(a, b, k + 1) {
        if k + 1 <= |a| && k + 1 < |b| {
          assert a[..k + 1] == [a[0]] + a[1..][..k] && b[..k + 1] == [b[0]] + b[1..][..k];
        }
      }
      forall k: nat | DecidesAt(a, b, k) ensures k > 0 && DecidesAt(a[1..], b[1..], k - 1) {
        var rest := DecidesAt(a[1..], b[1..], k - 1);
      }
    } else if a[0] < b[0] {
      assert DecidesAt(a, b, 0);
    } else {
      forall k: nat | 0 < k <= |a| && k < |b| ensures a[..k] != b[..k] {
        assert a[..k][0] != b[..k][0];
      }
    }
  }

  lemma {:induction false} LessIsTotal(a: string, b: string)
    ensures Less(a, b) || a == b || Less(b, a)
  {
    if a != [] && b != [] && a[0] == b[0] {
      LessIsTotal(a[1..], b[1..]);
      assert a == [a[0]] + a[1..] && b == [b[0]] + b[1..];
    }
  }

  lemma {:induction false} LessIsTransitive(a: string, b: string, c: string)
    requires Less(a, b) && Less(b, c)
    ensures Less(a, c)
  {
    if a != [] && a[0] == b[0] == c[0] {
      LessIsTransitive(a[1..], b[1..], c[1..]);
    }
  }

  lemma {:induction false} LessIsIrreflexive(a: string)
    ensures !Less(a, a)
  {
    if a != [] {
      LessIsIrreflexive(a[1..]);
    }
  }

  lemma LessIsAsymmetric(a: string, b: string)
    ensures !(Less(a, b) && Less(b, a))
  {
    if Less(a, b) && Less(b, a) {
      LessIsTransitive(a, b, a);
      LessIsIrreflexive(a);
    }
  }

  lemma LessIsNegativelyTransitive(a: string, b: string, c: string)
    requires !Less(a, b) && !Less(b, c)
    ensures !Less(a, c)
  {
    if Less(a, c) {
      LessIsTotal(a, b);
      LessIsTotal(b, c);
      if Less(c, b) {
        LessIsTransitive(a, c, b);
      }
    }
  }

  /** strings.TrimSpace. */
  function Trim(s: string): (t: string)
    ensures |t| <= |s|
    ensures t == s <==> s == [] || (!IsSpace(s[0]) && !IsSpace(s[|s| - 1]))
    ensures t == [] <==> IsBlank(s)
    ensures t != [] ==> !IsSpace(t[0]) && !IsSpace(t[|t| - 1])
    decreases |s|
  {
    if s == [] then s
    else if IsSpace(s[0]) then Trim(s[1..])
    else if IsSpace(s[|s| - 1]) then Trim(s[..|s| - 1])
    else s
  }

  lemma {:induction false} TrimDropsLast(s: string)
    requires s != [] && IsSpace(s[|s| - 1])
    ensures Trim(s) == Trim(s[..|s| - 1])
  {
    if |s| > 1 && IsSpace(s[0]) {
      TrimDropsLast(s[1..]);
      assert s[1..][..|s| - 2] == s[..|s| - 1][1..];
    }
  }

  /** Trimming a text that starts with a word keeps the start. */
  lemma {:induction false} TrimKeepsHead(s: string)
    requires s != [] && !IsSpace(s[0])
    ensures Trim(s) != [] && Trim(s)[0] == s[0]
    decreases |s|
  {
    if IsSpace(s[|s| - 1]) {
      TrimKeepsHead(s[..|s| - 1]);
    }
  }

  /** The first of strings.Fields(s), empty when there is none. */
  function FirstField(s: string): (f: string)
    ensures |f| <= |s|
  {
    if s == [] then [] else if IsSpace(s[0]) then FirstField(s[1..]) else Word(s)
  }

  /** The characters before the first white space. */
  function Word(s: string): (w: string)
    ensures w <= s
    ensures forall i | 0 <= i < |w| :: !IsSpace(w[i])
    ensures |w| < |s| ==> IsSpace(s[|w|])
  {
    if s == [] || IsSpace(s[0]) then [] else [s[0]] + Word(s[1..])
  }

  lemma {:induction false} WordIs(w: string, rest: string)
    requires forall i | 0 <= i < |w| :: !IsSpace(w[i])
    requires rest == [] || IsSpace(rest[0])
    ensures Word(w + rest) == w
  {
    if w == [] {
      assert w + rest == rest;
    } else {
      WordIs(w[1..], rest);
      assert (w + rest)[1..] == w[1..] + rest;
    }
  }

  /** Trimming changes neither the leading word of a text that starts with one nor the trimmed rest behind it. */
  lemma {:induction false} TrimKeepsWord(w: string, rest: string)
    requires w != [] && forall i | 0 <= i < |w| :: !IsSpace(w[i])
    requires rest == [] || IsSpace(rest[0])
    ensures var t := Trim(w + rest); FirstField(t) == w && w <= t && Trim(t[|w|..]) == Trim(rest)
    decreases |rest|
  {
    hide Trim, FirstField, IsSpace;
    var s := w + rest;
    if rest != [] && IsSpace(rest[|rest| - 1]) {
      assert s[..|s| - 1] == w + rest[..|rest| - 1] && s[|s| - 1] == rest[|rest| - 1];
      TrimKeepsWord(w, rest[..|rest| - 1]);
      TrimDropsLast(rest);
      TrimDropsLast(s);
    } else {
      assert s[|s| - 1] == (if rest == [] then w[|w| - 1] else rest[|rest| - 1]) && s[0] == w[0];
      assert Trim(s) == s && s[|w|..] == rest;
      LeadingWord(w, rest);
    }
  }

  lemma LeadingWord(w: string, rest: string)
    requires w != [] && forall i | 0 <= i < |w| :: !IsSpace(w[i])
    requires rest == [] || IsSpace(rest[0])
    ensures FirstField(w + rest) == w
  {
    WordIs(w, rest);
    assert (w + rest)[0] == w[0];
    hide Word, IsSpace;
  }
}
