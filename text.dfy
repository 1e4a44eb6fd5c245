/** String helpers with the meaning of the Go standard-library calls the shell uses:
    strings.Split, strings.Fields, strings.TrimSpace, strings.HasPrefix, strings.Count,
    and decimal formatting of naturals (fmt's %d).  Characters stand for bytes. */
module Text {

  /** ASCII white space as unicode.IsSpace sees it ('\t', '\n', '\v', '\f', '\r', ' '). */
  predicate IsSpace(c: char) {
    c == ' ' || c == '\t' || c == '\n' || c == '\r' || c == '\U{0B}' || c == '\U{0C}'
  }

  predicate HasPrefix(s: string, p: string) {
    |p| <= |s| && s[..|p|] == p
  }

  /** Number of occurrences of c in s (strings.Count with a one-character separator). */
  function Count(s: string, c: char): nat {
    if s == [] then 0 else (if s[0] == c then 1 else 0) + Count(s[1..], c)
  }

  /** The head and tail of a concatenation with a non-empty left part. */
  lemma HeadTailConcat<T>(a: seq<T>, b: seq<T>)
    requires a != []
    ensures (a + b)[0] == a[0] && (a + b)[1..] == a[1..] + b
  {
  }

  // ---------------------------------------------------------------------------
  // strings.Split on a one-character separator, and its inverse strings.Join

  /** The pieces of s between occurrences of sep; never empty (Split("", sep) == [""]). */
  function Split(s: string, sep: char): (r: seq<string>)
    ensures |r| >= 1
    ensures forall i :: 0 <= i < |r| ==> sep !in r[i]
  {
    if s == [] then [""]
    else
      var rest := Split(s[1..], sep);
      if s[0] == sep then [""] + rest
      else [[s[0]] + rest[0]] + rest[1..]
  }

  function Join(parts: seq<string>, sep: char): string
    requires |parts| >= 1
  {
    if |parts| == 1 then parts[0] else parts[0] + [sep] + Join(parts[1..], sep)
  }

  /** Joining the pieces back restores the string. */
  lemma {:induction false} JoinSplit(s: string, sep: char)
    ensures Join(Split(s, sep), sep) == s
  {
    if s != [] {
      var rest := Split(s[1..], sep);
      JoinSplit(s[1..], sep);
      if s[0] == sep {
        assert Split(s, sep)[1..] == rest;
      } else {
        var r := Split(s, sep);
        if |rest| == 1 {
          assert r == [[s[0]] + rest[0]];
        } else {
          assert r[1..] == rest[1..];
          assert Join(r, sep) == [s[0]] + rest[0] + [sep] + Join(rest[1..], sep);
          assert Join(rest, sep) == rest[0] + [sep] + Join(rest[1..], sep);
        }
      }
    }
  }

  /** Splitting a join of separator-free pieces gives the pieces back. */
  lemma {:induction false} SplitJoin(parts: seq<string>, sep: char)
    requires |parts| >= 1
    requires forall i :: 0 <= i < |parts| ==> sep !in parts[i]
    ensures Split(Join(parts, sep), sep) == parts
  {
    if |parts| == 1 {
      SplitNoSep(parts[0], sep);
    } else {
      SplitJoin(parts[1..], sep);
      SplitPrefix(parts[0], Join(parts[1..], sep), sep);
      assert Join(parts, sep) == parts[0] + ([sep] + Join(parts[1..], sep));
      assert [parts[0]] + parts[1..] == parts;
    }
  }

  lemma {:induction false} SplitNoSep(w: string, sep: char)
    requires sep !in w
    ensures Split(w, sep) == [w]
  {
    if w != [] {
      SplitNoSep(w[1..], sep);
      assert [w[0]] + w[1..] == w;
    }
  }

  /** A separator-free word followed by a separator and a tail: the word is the first piece. */
  lemma {:induction false} SplitPrefix(w: string, tail: string, sep: char)
    requires sep !in w
    ensures Split(w + ([sep] + tail), sep) == [w] + Split(tail, sep)
  {
    if w == [] {
      assert w + ([sep] + tail) == [sep] + tail;
      assert ([sep] + tail)[1..] == tail;
    } else {
      var s := w + ([sep] + tail);
      assert s[1..] == w[1..] + ([sep] + tail);
      SplitPrefix(w[1..], tail, sep);
      assert [w[0]] + w[1..] == w;
    }
  }

  /** There is one more piece than there are separators. */
  lemma {:induction false} SplitCount(s: string, sep: char)
    ensures |Split(s, sep)| == Count(s, sep) + 1
  {
    if s != [] {
      SplitCount(s[1..], sep);
    }
  }

  /** A string that ends in the separator has an empty last piece. */
  lemma {:induction false} SplitTrailing(s: string, sep: char)
    ensures Split(s + [sep], sep) == Split(s, sep)[..|Split(s, sep)| - 1] + [Split(s, sep)[|Split(s, sep)| - 1], ""]
  {
    var r := Split(s, sep);
    if s == [] {
      assert [sep][1..] == [];
    } else {
      assert (s + [sep])[1..] == s[1..] + [sep];
      SplitTrailing(s[1..], sep);
      var rest := Split(s[1..], sep);
      if s[0] != sep {
        assert r[1..] == rest[1..];
      }
    }
  }

  // ---------------------------------------------------------------------------
  // strings.TrimSpace and strings.Fields

  function TrimLeft(s: string): (r: string)
    ensures r == [] || !IsSpace(r[0])
    ensures |r| <= |s|
  {
    if s != [] && IsSpace(s[0]) then TrimLeft(s[1..]) else s
  }

  function TrimRight(s: string): (r: string)
    ensures r == [] || !IsSpace(r[|r| - 1])
    ensures |r| <= |s|
  {
    if s != [] && IsSpace(s[|s| - 1]) then TrimRight(s[..|s| - 1]) else s
  }

  /** strings.TrimSpace: the string without leading and trailing white space. */
  function TrimSpace(s: string): (r: string)
    ensures r == [] || (!IsSpace(r[0]) && !IsSpace(r[|r| - 1]))
  {
    TrimLeftSuffix(TrimRight(s));
    TrimLeft(TrimRight(s))
  }

  /** TrimLeft only drops a prefix. */
  lemma {:induction false} TrimLeftSuffix(s: string)
    ensures TrimLeft(s) == s[|s| - |TrimLeft(s)|..]
  {
    if s != [] && IsSpace(s[0]) {
      TrimLeftSuffix(s[1..]);
      assert s[1..][|s| - 1 - |TrimLeft(s)|..] == s[|s| - |TrimLeft(s)|..];
    }
  }

  /** What TrimLeft drops is white space. */
  lemma {:induction false} TrimLeftDropsSpace(s: string)
    ensures forall k :: 0 <= k < |s| - |TrimLeft(s)| ==> IsSpace(s[k])
  {
    if s != [] && IsSpace(s[0]) {
      TrimLeftDropsSpace(s[1..]);
      forall k | 0 < k < |s| - |TrimLeft(s)| ensures IsSpace(s[k]) {
        assert s[k] == s[1..][k - 1];
      }
    }
  }

  /** TrimRight only drops a suffix, and what it drops is white space. */
  lemma {:induction false} TrimRightPrefix(s: string)
    ensures TrimRight(s) == s[..|TrimRight(s)|]
    ensures forall k :: |TrimRight(s)| <= k < |s| ==> IsSpace(s[k])
  {
    if s != [] && IsSpace(s[|s| - 1]) {
      var init := s[..|s| - 1];
      TrimRightPrefix(init);
      assert init[..|TrimRight(s)|] == s[..|TrimRight(s)|];
      forall k | |TrimRight(s)| <= k < |s| - 1 ensures IsSpace(s[k]) {
        assert s[k] == init[k];
      }
    }
  }

  /** strings.TrimSpace removes exactly the leading and the trailing white space: the result
      is a slice of s, everything outside it is white space, and the slice has non-space ends. */
  lemma TrimSpaceIsSlice(s: string)
    ensures exists i, j ::
      && 0 <= i <= j <= |s| && TrimSpace(s) == s[i..j]
      && (forall k :: 0 <= k < i ==> IsSpace(s[k]))
      && (forall k :: j <= k < |s| ==> IsSpace(s[k]))
  {
    var r := TrimRight(s);
    TrimRightPrefix(s);
    TrimLeftSuffix(r);
    TrimLeftDropsSpace(r);
    var j := |r|;
    var i := |r| - |TrimLeft(r)|;
    assert TrimSpace(s) == r[i..];
    assert r[i..] == s[i..j];
    forall k | 0 <= k < i ensures IsSpace(s[k]) {
      assert s[k] == r[k];
    }
  }

  /** Length of the leading run of non-space characters. */
  function WordLen(s: string): (n: nat)
    ensures n <= |s|
    ensures forall i :: 0 <= i < n ==> !IsSpace(s[i])
    ensures n < |s| ==> IsSpace(s[n])
  {
    if s == [] || IsSpace(s[0]) then 0 else 1 + WordLen(s[1..])
  }

  predicate IsWord(w: string) {
    w != [] && forall i :: 0 <= i < |w| ==> !IsSpace(w[i])
  }

  /** strings.Fields: the maximal runs of non-space characters, in order. */
  function Fields(s: string): (r: seq<string>)
    ensures forall i :: 0 <= i < |r| ==> IsWord(r[i])
    decreases |s|
  {
    var t := TrimLeft(s);
    if t == [] then []
    else
      var n := WordLen(t);
      assert n > 0;
      var w := t[..n];
      assert IsWord(w) by {
        forall i | 0 <= i < |w| ensures !IsSpace(w[i]) {
          assert w[i] == t[i];
        }
      }
      [w] + Fields(t[n..])
  }

  lemma TrimLeftIdempotent(s: string)
    ensures TrimLeft(TrimLeft(s)) == TrimLeft(s)
  {
  }

  /** A trailing space never adds or changes a field. */
  lemma {:induction false} FieldsAppendSpace(s: string, c: char)
    requires IsSpace(c)
    ensures Fields(s + [c]) == Fields(s)
    decreases |s|
  {
    TrimLeftAppend(s, c);
    var t := TrimLeft(s);
    var u := TrimLeft(s + [c]);
    if t == [] {
      assert u == [];
    } else {
      assert u == t + [c];
      var n := WordLen(t);
      WordLenAppend(t, c);
      assert WordLen(u) == n;
      assert u[..n] == t[..n];
      assert u[n..] == t[n..] + [c];
      FieldsAppendSpace(t[n..], c);
      assert Fields(s + [c]) == [u[..n]] + Fields(u[n..]);
      assert Fields(s) == [t[..n]] + Fields(t[n..]);
    }
  }

  lemma {:induction false} TrimLeftAppend(s: string, c: char)
    requires IsSpace(c)
    ensures TrimLeft(s + [c]) == if TrimLeft(s) == [] then [] else TrimLeft(s) + [c]
  {
    if s == [] {
      assert TrimLeft([c]) == TrimLeft([]);
    } else if IsSpace(s[0]) {
      assert (s + [c])[1..] == s[1..] + [c];
      TrimLeftAppend(s[1..], c);
    }
  }

  lemma {:induction false} WordLenAppend(t: string, c: char)
    requires IsSpace(c)
    ensures WordLen(t + [c]) == WordLen(t)
  {
    if t != [] && !IsSpace(t[0]) {
      assert (t + [c])[1..] == t[1..] + [c];
      WordLenAppend(t[1..], c);
    }
  }

  lemma {:induction false} FieldsTrimRight(s: string)
    ensures Fields(TrimRight(s)) == Fields(s)
    decreases |s|
  {
    if s != [] && IsSpace(s[|s| - 1]) {
      var init, c := s[..|s| - 1], s[|s| - 1];
      assert s == init + [c];
      calc {
        Fields(TrimRight(s));
        { assert TrimRight(s) == TrimRight(init); }
        Fields(TrimRight(init));
        { FieldsTrimRight(init); }
        Fields(init);
        { FieldsAppendSpace(init, c); }
        Fields(init + [c]);
      }
    }
  }

  /** Trimming before splitting into fields changes nothing. */
  lemma FieldsTrimSpace(s: string)
    ensures Fields(TrimSpace(s)) == Fields(s)
  {
    FieldsTrimRight(s);
    TrimLeftIdempotent(TrimRight(s));
  }

  /** A string has no fields exactly when it trims to the empty string. */
  lemma FieldsEmptyIffBlank(s: string)
    ensures Fields(s) == [] <==> TrimSpace(s) == []
  {
    FieldsTrimSpace(s);
    var t := TrimSpace(s);
    if t != [] {
      assert TrimLeft(t) == t;
    }
  }

  /** A word followed by nothing or by white space is the leading run. */
  lemma {:induction false} WordLenOfWord(w: string, tail: string)
    requires IsWord(w) && (tail == [] || IsSpace(tail[0]))
    ensures WordLen(w + tail) == |w|
    decreases |w|
  {
    var s := w + tail;
    assert s[0] == w[0];
    if |w| > 1 {
      assert s[1..] == w[1..] + tail;
      assert IsWord(w[1..]) by {
        forall i | 0 <= i < |w| - 1 ensures !IsSpace(w[1..][i]) {
          assert w[1..][i] == w[i + 1];
        }
      }
      WordLenOfWord(w[1..], tail);
    } else {
      assert s[1..] == tail;
    }
  }

  /** Fields of a white-space character followed by x are the fields of x. */
  lemma FieldsLeadingSpace(c: char, x: string)
    requires IsSpace(c)
    ensures Fields([c] + x) == Fields(x)
  {
    assert ([c] + x)[1..] == x;
    assert TrimLeft([c] + x) == TrimLeft(x);
  }

  /** A word followed by a space and more text: the word is the first field. */
  lemma FieldsWordThen(w: string, x: string)
    requires IsWord(w)
    ensures Fields(w + ([' '] + x)) == [w] + Fields(x)
  {
    var s := w + ([' '] + x);
    assert s[0] == w[0];
    assert TrimLeft(s) == s;
    WordLenOfWord(w, [' '] + x);
    assert s[..|w|] == w;
    assert s[|w|..] == [' '] + x;
    FieldsLeadingSpace(' ', x);
  }

  /** A single word is its own only field. */
  lemma FieldsOfWord(w: string)
    requires IsWord(w)
    ensures Fields(w) == [w]
  {
    assert w[0] == w[0];
    assert TrimLeft(w) == w;
    WordLenOfWord(w, []);
    assert w + [] == w;
    assert w[..|w|] == w;
    assert w[|w|..] == [];
  }

  /** A word that is not all of x ends at white space that is also in x + tail. */
  lemma {:induction false} WordLenExtend(x: string, tail: string)
    requires WordLen(x) < |x|
    ensures WordLen(x + tail) == WordLen(x)
    decreases |x|
  {
    var s := x + tail;
    assert s[0] == x[0];
    if !IsSpace(x[0]) {
      assert s[1..] == x[1..] + tail;
      WordLenExtend(x[1..], tail);
    }
  }

  /** Any white-space character separates fields: the fields of x, a white-space character
      and y are the fields of x followed by the fields of y. */
  lemma {:induction false} FieldsSeparator(x: string, c: char, y: string)
    requires IsSpace(c)
    ensures Fields(x + [c] + y) == Fields(x) + Fields(y)
    decreases |x|
  {
    var s := x + [c] + y;
    if x == [] {
      assert s == [c] + y;
      FieldsLeadingSpace(c, y);
    } else if IsSpace(x[0]) {
      assert s == [x[0]] + (x[1..] + [c] + y);
      assert x == [x[0]] + x[1..];
      FieldsLeadingSpace(x[0], x[1..] + [c] + y);
      FieldsLeadingSpace(x[0], x[1..]);
      FieldsSeparator(x[1..], c, y);
    } else {
      var n := WordLen(x);
      assert s[0] == x[0] && TrimLeft(s) == s && TrimLeft(x) == x;
      if n == |x| {
        assert IsWord(x);
        assert s == x + ([c] + y);
        WordLenOfWord(x, [c] + y);
        assert s[..n] == x && s[n..] == [c] + y;
        FieldsLeadingSpace(c, y);
        FieldsOfWord(x);
      } else {
        WordLenExtend(x, [c] + y);
        assert s == x + ([c] + y);
        assert s[..n] == x[..n];
        assert s[n..] == x[n..] + [c] + y;
        FieldsSeparator(x[n..], c, y);
      }
    }
  }

  /** strings.Fields inverts joining words with single spaces. */
  lemma {:induction false} FieldsJoin(ws: seq<string>)
    requires ws != [] && forall i :: 0 <= i < |ws| ==> IsWord(ws[i])
    ensures Fields(Join(ws, ' ')) == ws
    decreases |ws|
  {
    if |ws| == 1 {
      FieldsOfWord(ws[0]);
    } else {
      FieldsJoin(ws[1..]);
      assert Join(ws, ' ') == ws[0] + ([' '] + Join(ws[1..], ' '));
      FieldsWordThen(ws[0], Join(ws[1..], ' '));
      assert [ws[0]] + ws[1..] == ws;
    }
  }

  // ---------------------------------------------------------------------------
  // %d formatting of a natural, and the parser it inverts

  function DigitChar(d: nat): char
    requires d < 10
  {
    ('0' as int + d) as char
  }

  function DigitValue(c: char): nat {
    if '0' <= c <= '9' then (c as int - '0' as int) as nat else 0
  }

  /** Decimal representation without leading zeros. */
  function NatToString(n: nat): (r: string)
    ensures |r| >= 1
    ensures forall i :: 0 <= i < |r| ==> '0' <= r[i] <= '9'
    ensures n > 0 ==> r[0] != '0'
  {
    if n < 10 then [DigitChar(n)] else NatToString(n / 10) + [DigitChar(n % 10)]
  }

  function ParseNat(s: string): nat {
    if s == [] then 0 else 10 * ParseNat(s[..|s| - 1]) + DigitValue(s[|s| - 1])
  }

  lemma {:induction false} ParseNatToString(n: nat)
    ensures ParseNat(NatToString(n)) == n
  {
    var r := NatToString(n);
    if n >= 10 {
      var init := NatToString(n / 10);
      ParseNatToString(n / 10);
      assert r == init + [DigitChar(n % 10)];
      assert r[..|r| - 1] == init;
      assert DigitValue(r[|r| - 1]) == n % 10;
    } else {
      assert r == [DigitChar(n)];
      assert r[..0] == [];
    }
  }
}
