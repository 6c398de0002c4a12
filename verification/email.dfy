/** The e-mail pattern of the user schema,
      ^\w+([.-]?\w+)*@\w+([.-]?\w+)*(\.\w{2,3})+$
    as recursive predicates that follow the pattern's structure, and a
    characterisation of the strings it accepts by their shape.

    `\w` is read without the `u` flag: ASCII letters, ASCII digits and `_`.
 */
module Email {
  import opened Text

  predicate IsWordChar(c: char) {
    || ('a' <= c <= 'z') || ('A' <= c <= 'Z') || ('0' <= c <= '9') || c == '_'
  }

  /** The optional separator `[.-]`. */
  predicate IsSep(c: char) {
    c == '.' || c == '-'
  }

  // ---------------------------------------------------------------------------
  // The pattern, piece by piece
  // ---------------------------------------------------------------------------

  /** The whole of `s` matches `\w+([.-]?\w+)*`: a word character, then the
      end, or more of the same, or one separator and more of the same. */
  predicate Segmented(s: string)
    decreases |s|
  {
    && |s| > 0 && IsWordChar(s[0])
    && (|| |s| == 1
        || (IsWordChar(s[1]) && Segmented(s[1..]))
        || (IsSep(s[1]) && Segmented(s[2..])))
  }

  /** The whole of `s` matches `(\.\w{2,3})+`. */
  predicate TldRun(s: string)
    decreases |s|
  {
    && |s| >= 3 && s[0] == '.' && IsWordChar(s[1]) && IsWordChar(s[2])
    && (|| |s| == 3
        || TldRun(s[3..])
        || (IsWordChar(s[3]) && (|s| == 4 || TldRun(s[4..]))))
  }

  /** The whole of `s` matches `\w+([.-]?\w+)*(\.\w{2,3})+`. */
  predicate Domain(s: string) {
    exists i :: 0 < i < |s| && Segmented(s[..i]) && TldRun(s[i..])
  }

  /** The schema's e-mail pattern accepts `s`. */
  predicate ValidEmail(s: string) {
    exists i :: 0 < i < |s| && s[i] == '@' && Segmented(s[..i]) && Domain(s[i + 1..])
  }

  // ---------------------------------------------------------------------------
  // Shape of the accepted strings
  // ---------------------------------------------------------------------------

  /** Starts and ends with a word character and never has two non-word
      characters side by side. */
  predicate Flanked(s: string) {
    && |s| > 0 && IsWordChar(s[0]) && IsWordChar(s[|s| - 1])
    && (forall i :: 0 < i < |s| ==> IsWordChar(s[i - 1]) || IsWordChar(s[i]))
  }

  /** Every character is a word character or a separator. */
  predicate WordsAndSeps(s: string) {
    forall i :: 0 <= i < |s| ==> IsWordChar(s[i]) || IsSep(s[i])
  }

  /** What `\w+([.-]?\w+)*` describes, stated without recursion. */
  predicate SegmentShape(s: string) {
    Flanked(s) && WordsAndSeps(s)
  }

  /** Ends with a dot followed by two or three word characters. */
  predicate EndsWithTld(s: string) {
    var n := |s|;
    || (n >= 3 && s[n - 3] == '.' && IsWordChar(s[n - 2]) && IsWordChar(s[n - 1]))
    || (n >= 4 && s[n - 4] == '.' && IsWordChar(s[n - 3]) && IsWordChar(s[n - 2]) && IsWordChar(s[n - 1]))
  }

  /** What the whole pattern describes, stated without recursion. */
  predicate EmailShape(s: string) {
    exists i ::
      && 0 < i < |s| && s[i] == '@'
      && SegmentShape(s[..i]) && SegmentShape(s[i + 1..]) && EndsWithTld(s[i + 1..])
  }

  // ---------------------------------------------------------------------------
  // The recursive reading and the shape agree
  // ---------------------------------------------------------------------------

  lemma {:induction false} SegmentedIsShape(s: string)
    ensures Segmented(s) <==> SegmentShape(s)
    decreases |s|
  {
    if |s| >= 2 {
      SegmentedIsShape(s[1..]);
      SegmentedIsShape(s[2..]);
      if Segmented(s) {
        if IsWordChar(s[1]) && Segmented(s[1..]) {
          ShapeCons(s);
        } else {
          ShapeConsSep(s);
        }
      }
      if SegmentShape(s) {
        ShapeUncons(s);
      }
    }
  }

  /** A word character in front of a well-shaped string keeps its shape. */
  lemma ShapeCons(s: string)
    requires |s| >= 2 && IsWordChar(s[0]) && SegmentShape(s[1..])
    ensures SegmentShape(s)
  {
    var t := s[1..];
    forall i | 0 < i < |s| ensures IsWordChar(s[i - 1]) || IsWordChar(s[i]) {
      if i > 1 {
        assert s[i - 1] == t[i - 2] && s[i] == t[i - 1];
      }
    }
    forall i | 0 <= i < |s| ensures IsWordChar(s[i]) || IsSep(s[i]) {
      if i > 0 {
        assert s[i] == t[i - 1];
      }
    }
  }

  /** A word character and a separator in front of a well-shaped string keep
      its shape. */
  lemma ShapeConsSep(s: string)
    requires |s| >= 3 && IsWordChar(s[0]) && IsSep(s[1]) && SegmentShape(s[2..])
    ensures SegmentShape(s)
  {
    var t := s[2..];
    forall i | 0 < i < |s| ensures IsWordChar(s[i - 1]) || IsWordChar(s[i]) {
      if i > 2 {
        assert s[i - 1] == t[i - 3] && s[i] == t[i - 2];
      } else if i == 2 {
        assert s[2] == t[0];
      }
    }
    forall i | 0 <= i < |s| ensures IsWordChar(s[i]) || IsSep(s[i]) {
      if i > 1 {
        assert s[i] == t[i - 2];
      }
    }
  }

  /** Taking the first run character off a well-shaped string of length two or
      more leaves one of the two recursive cases. */
  lemma ShapeUncons(s: string)
    requires |s| >= 2 && SegmentShape(s)
    ensures IsWordChar(s[1]) ==> SegmentShape(s[1..])
    ensures IsSep(s[1]) ==> |s| >= 3 && SegmentShape(s[2..])
  {
    if IsWordChar(s[1]) {
      var t := s[1..];
      forall i | 0 < i < |t| ensures IsWordChar(t[i - 1]) || IsWordChar(t[i]) {
        assert t[i - 1] == s[i] && t[i] == s[i + 1];
      }
      forall i | 0 <= i < |t| ensures IsWordChar(t[i]) || IsSep(t[i]) {
        assert t[i] == s[i + 1];
      }
    }
    if IsSep(s[1]) {
      assert |s| >= 3;
      var t := s[2..];
      assert IsWordChar(s[2]);
      forall i | 0 < i < |t| ensures IsWordChar(t[i - 1]) || IsWordChar(t[i]) {
        assert t[i - 1] == s[i + 1] && t[i] == s[i + 2];
      }
      forall i | 0 <= i < |t| ensures IsWordChar(t[i]) || IsSep(t[i]) {
        assert t[i] == s[i + 2];
      }
    }
  }

  /** Two flanked strings joined by any one character are flanked. */
  lemma FlankedJoin(x: string, c: char, y: string)
    requires Flanked(x) && Flanked(y)
    ensures Flanked(x + [c] + y)
  {
    var s := x + [c] + y;
    forall i | 0 < i < |s| ensures IsWordChar(s[i - 1]) || IsWordChar(s[i]) {
      if i < |x| {
        assert s[i - 1] == x[i - 1] && s[i] == x[i];
      } else if i == |x| {
        assert s[i - 1] == x[|x| - 1];
      } else if i == |x| + 1 {
        assert s[i] == y[0];
      } else {
        assert s[i - 1] == y[i - 1 - |x| - 1] && s[i] == y[i - |x| - 1];
      }
    }
  }

  /** Joining two well-shaped strings with a separator gives a well-shaped string. */
  lemma ShapeJoin(x: string, c: char, y: string)
    requires SegmentShape(x) && SegmentShape(y) && IsSep(c)
    ensures SegmentShape(x + [c] + y)
  {
    FlankedJoin(x, c, y);
    var s := x + [c] + y;
    forall i | 0 <= i < |s| ensures IsWordChar(s[i]) || IsSep(s[i]) {
      if i < |x| {
        assert s[i] == x[i];
      } else if i > |x| {
        assert s[i] == y[i - |x| - 1];
      }
    }
  }

  /** A prefix of a well-shaped string that ends on a word character is well shaped. */
  lemma ShapePrefix(s: string, n: nat)
    requires SegmentShape(s) && 0 < n <= |s| && IsWordChar(s[n - 1])
    ensures SegmentShape(s[..n])
  {
    var p := s[..n];
    assert forall i :: 0 <= i < n ==> p[i] == s[i];
  }

  lemma {:induction false} TldRunShape(t: string)
    requires TldRun(t)
    ensures SegmentShape(t[1..]) && EndsWithTld(t)
    decreases |t|
  {
    if |t| == 3 {
      TldBase(t);
    } else if TldRun(t[3..]) {
      TldRunShape(t[3..]);
      TldStep(t, 3);
    } else if |t| == 4 {
      TldBase(t);
    } else {
      TldRunShape(t[4..]);
      TldStep(t, 4);
    }
  }

  /** A single `.ww` or `.www`. */
  lemma TldBase(t: string)
    requires |t| == 3 || |t| == 4
    requires t[0] == '.' && forall j :: 1 <= j < |t| ==> IsWordChar(t[j])
    ensures SegmentShape(t[1..]) && EndsWithTld(t)
  {
    var w := t[1..];
    assert forall j :: 0 <= j < |w| ==> w[j] == t[j + 1];
  }

  /** A `.ww` or `.www` in front of a longer run. */
  lemma TldStep(t: string, k: nat)
    requires 3 <= k <= 4 && |t| > k
    requires t[0] == '.' && forall j :: 1 <= j < k ==> IsWordChar(t[j])
    requires TldRun(t[k..]) && SegmentShape(t[k..][1..]) && EndsWithTld(t[k..])
    ensures SegmentShape(t[1..]) && EndsWithTld(t)
  {
    var w := t[1..k];
    assert forall j :: 0 <= j < |w| ==> w[j] == t[j + 1];
    var rest := t[k..][1..];
    ShapeJoin(w, '.', rest);
    assert t[1..] == w + ['.'] + rest;
    EndsWithTldOfSuffix(t, k);
  }

  /** A tail of the form `.ww` or `.www` is a `(\.\w{2,3})+` run. */
  lemma ShortTldRun(t: string)
    requires |t| == 3 || |t| == 4
    requires t[0] == '.' && forall i :: 1 <= i < |t| ==> IsWordChar(t[i])
    ensures TldRun(t)
  {
  }

  lemma EndsWithTldOfSuffix(s: string, k: nat)
    requires k <= |s| && EndsWithTld(s[k..])
    ensures EndsWithTld(s)
  {
    var t := s[k..];
    assert forall j :: 0 <= j < |t| ==> t[j] == s[k + j];
  }

  /** `\w+([.-]?\w+)*(\.\w{2,3})+` accepts exactly the well-shaped strings
      that end in a dot and two or three word characters. */
  lemma DomainIsShape(d: string)
    ensures Domain(d) <==> SegmentShape(d) && EndsWithTld(d)
  {
    if Domain(d) {
      DomainHasShape(d);
    }
    if SegmentShape(d) && EndsWithTld(d) {
      ShapeIsDomain(d);
    }
  }

  lemma DomainHasShape(d: string)
    requires Domain(d)
    ensures SegmentShape(d) && EndsWithTld(d)
  {
    var i :| 0 < i < |d| && Segmented(d[..i]) && TldRun(d[i..]);
    var t := d[i..];
    SegmentedIsShape(d[..i]);
    TldRunShape(t);
    ShapeJoin(d[..i], '.', t[1..]);
    assert d == d[..i] + ['.'] + t[1..];
    EndsWithTldOfSuffix(d, i);
  }

  lemma ShapeIsDomain(d: string)
    requires SegmentShape(d) && EndsWithTld(d)
    ensures Domain(d)
  {
    var n := |d|;
    var k := if d[n - 3] == '.' && IsWordChar(d[n - 2]) && IsWordChar(d[n - 1]) then 2 else 3;
    var i := n - k - 1;
    assert 0 < i;
    assert IsWordChar(d[i - 1]);
    ShapePrefix(d, i);
    SegmentedIsShape(d[..i]);
    var t := d[i..];
    assert forall j :: 1 <= j < |t| ==> t[j] == d[i + j];
    ShortTldRun(t);
  }

  /** The recursive pattern and the shape description accept the same strings. */
  lemma ValidEmailIsShape(s: string)
    ensures ValidEmail(s) <==> EmailShape(s)
  {
    if ValidEmail(s) {
      var i :| 0 < i < |s| && s[i] == '@' && Segmented(s[..i]) && Domain(s[i + 1..]);
      SegmentedIsShape(s[..i]);
      DomainIsShape(s[i + 1..]);
    }
    if EmailShape(s) {
      var i :| 0 < i < |s| && s[i] == '@' && SegmentShape(s[..i])
        && SegmentShape(s[i + 1..]) && EndsWithTld(s[i + 1..]);
      SegmentedIsShape(s[..i]);
      DomainIsShape(s[i + 1..]);
    }
  }

  // ---------------------------------------------------------------------------
  // Consequences
  // ---------------------------------------------------------------------------

  lemma {:induction false} CountAppend(x: string, y: string, c: char)
    ensures Count(x + y, c) == Count(x, c) + Count(y, c)
    decreases |x|
  {
    if |x| > 0 {
      assert (x + y)[0] == x[0];
      assert (x + y)[1..] == x[1..] + y;
      CountAppend(x[1..], y, c);
    } else {
      assert x + y == y;
    }
  }

  lemma {:induction false} CountAbsent(x: string, c: char)
    requires forall i :: 0 <= i < |x| ==> x[i] != c
    ensures Count(x, c) == 0
    decreases |x|
  {
    if |x| > 0 {
      CountAbsent(x[1..], c);
    }
  }

  /** An accepted address has exactly one `@`, starts with a word character,
      ends with a dot and two or three word characters, and every `.`, `-`
      and `@` in it sits between two word characters. */
  lemma ValidEmailFacts(s: string)
    requires ValidEmail(s)
    ensures Count(s, '@') == 1
    ensures IsWordChar(s[0])
    ensures EndsWithTld(s)
    ensures Flanked(s)
    ensures forall j :: 0 <= j < |s| ==> IsWordChar(s[j]) || IsSep(s[j]) || s[j] == '@'
  {
    ValidEmailIsShape(s);
    var i :| 0 < i < |s| && s[i] == '@' && SegmentShape(s[..i])
      && SegmentShape(s[i + 1..]) && EndsWithTld(s[i + 1..]);
    AddressFacts(s[..i], s[i + 1..]);
    SplitAround(s, i);
  }

  lemma SplitAround(s: string, i: nat)
    requires i < |s|
    ensures s == s[..i] + [s[i]] + s[i + 1..]
  {
  }

  /** The facts of `ValidEmailFacts`, for an address given by its two halves. */
  lemma AddressFacts(local: string, domain: string)
    requires SegmentShape(local) && SegmentShape(domain) && EndsWithTld(domain)
    ensures var s := local + ['@'] + domain;
      && Count(s, '@') == 1 && IsWordChar(s[0]) && EndsWithTld(s) && Flanked(s)
      && forall j :: 0 <= j < |s| ==> IsWordChar(s[j]) || IsSep(s[j]) || s[j] == '@'
  {
    var s := local + ['@'] + domain;
    FlankedJoin(local, '@', domain);
    assert s[|local| + 1..] == domain;
    EndsWithTldOfSuffix(s, |local| + 1);
    SingleAt(local, domain);
    forall j | 0 <= j < |s| ensures IsWordChar(s[j]) || IsSep(s[j]) || s[j] == '@' {
      if j < |local| {
        assert s[j] == local[j];
      } else if j > |local| {
        assert s[j] == domain[j - |local| - 1];
      }
    }
  }

  lemma SingleAt(local: string, domain: string)
    requires WordsAndSeps(local) && WordsAndSeps(domain)
    ensures Count(local + ['@'] + domain, '@') == 1
  {
    CountAbsent(local, '@');
    CountAbsent(domain, '@');
    CountAppend(local + ['@'], domain, '@');
    CountAppend(local, ['@'], '@');
  }

  // ---------------------------------------------------------------------------
  // Examples
  // ---------------------------------------------------------------------------

  /** The demo account's address is accepted. */
  lemma DemoAddressAccepted()
    ensures ValidEmail("demo@example.com")
  {
    var s := "demo@example.com";
    assert Segmented("demo") by {
      assert Segmented("o");
      assert "mo"[1..] == "o";
      assert Segmented("mo");
      assert "emo"[1..] == "mo";
      assert Segmented("emo");
      assert "demo"[1..] == "emo";
    }
    SegmentedIsShape("demo");
    assert SegmentShape("example.com") by {
      var d := "example.com";
      assert forall j :: 0 <= j < |d| ==> IsWordChar(d[j]) || IsSep(d[j]);
      assert forall j :: 0 < j < |d| ==> IsWordChar(d[j - 1]) || IsWordChar(d[j]);
    }
    assert s[..4] == "demo" && s[5..] == "example.com";
    assert EmailShape(s);
    ValidEmailIsShape(s);
  }

  /** A one-letter top-level domain is refused. */
  lemma OneLetterTldRefused()
    ensures !ValidEmail("a@b.c")
  {
    var s := "a@b.c";
    ValidEmailIsShape(s);
  }

  /** A four-letter top-level domain such as `.info` is refused. */
  lemma FourLetterTldRefused()
    ensures !ValidEmail("a@b.info")
  {
    var s := "a@b.info";
    ValidEmailIsShape(s);
  }

  /** Two separators in a row are refused. */
  lemma DoubleDotRefused()
    ensures !ValidEmail("a..b@c.com")
  {
    var s := "a..b@c.com";
    ValidEmailIsShape(s);
    assert !Flanked(s[..4]) by {
      assert s[..4][1] == '.' && s[..4][2] == '.';
    }
    assert forall i :: 0 <= i < |s| && s[i] == '@' ==> i == 4;
  }
}
