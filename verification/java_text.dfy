/** The two pieces of the Java runtime library the layout engine leans on:
    `String.split(" ")` and `Integer.toString`. */
module JavaText {

  /** True when `s` holds no space character. */
  predicate SpaceFree(s: string) {
    forall i :: 0 <= i < |s| ==> s[i] != ' '
  }

  /** True when every character of `s` is a space. */
  predicate AllSpaces(s: string) {
    forall i :: 0 <= i < |s| ==> s[i] == ' '
  }

  /** The pieces of `s` between consecutive spaces, one more piece than there
      are spaces; empty pieces are kept. */
  function RawSplit(s: string): (r: seq<string>)
    ensures |r| >= 1
    ensures forall k :: 0 <= k < |r| ==> SpaceFree(r[k])
    decreases |s|
  {
    if |s| == 0 then [""]
    else
      var rest := RawSplit(s[1..]);
      if s[0] == ' ' then [""] + rest
      else [[s[0]] + rest[0]] + rest[1..]
  }

  /** The tokens joined with one space between neighbours. */
  function JoinSpaces(ts: seq<string>): string {
    if |ts| == 0 then ""
    else if |ts| == 1 then ts[0]
    else ts[0] + " " + JoinSpaces(ts[1..])
  }

  /** `ts` with its trailing run of empty strings removed. */
  function DropTrailingEmpty(ts: seq<string>): (r: seq<string>)
    ensures |r| <= |ts| && r == ts[..|r|]
    ensures forall k :: |r| <= k < |ts| ==> ts[k] == ""
    ensures |r| == 0 || r[|r| - 1] != ""
  {
    if |ts| > 0 && ts[|ts| - 1] == "" then DropTrailingEmpty(ts[..|ts| - 1]) else ts
  }

  /** Java's `s.split(" ")`: when `s` holds no space the result is `[s]`
      (so `""` gives `[""]`); otherwise the pieces between spaces with the
      trailing empty pieces dropped (so `" "` gives `[]`). Leading and inner
      empty pieces stay. */
  function JavaSplit(s: string): (r: seq<string>)
    ensures forall k :: 0 <= k < |r| ==> SpaceFree(r[k])
  {
    if SpaceFree(s) then [s] else DropTrailingEmpty(RawSplit(s))
  }

  /** Splitting and rejoining gives the text back. */
  lemma {:induction false} SplitThenJoin(s: string)
    ensures JoinSpaces(RawSplit(s)) == s
    decreases |s|
  {
    if |s| > 0 {
      var rest := RawSplit(s[1..]);
      SplitThenJoin(s[1..]);
      if s[0] == ' ' {
        assert RawSplit(s) == [""] + rest;
        assert ([""] + rest)[1..] == rest;
      } else {
        var r := RawSplit(s);
        assert r == [[s[0]] + rest[0]] + rest[1..];
        if |rest| == 1 {
          assert JoinSpaces(rest) == rest[0];
        } else {
          assert JoinSpaces(rest) == rest[0] + " " + JoinSpaces(rest[1..]);
          assert r[1..] == rest[1..];
        }
      }
    }
  }

  /** A space-free string is a single piece. */
  lemma {:induction false} SplitSpaceFree(a: string)
    requires SpaceFree(a)
    ensures RawSplit(a) == [a]
    decreases |a|
  {
    if |a| > 0 {
      SplitSpaceFree(a[1..]);
      assert [a[0]] + a[1..] == a;
    }
  }

  /** A space-free head is split off at the first space. */
  lemma {:induction false} SplitAtSpace(a: string, b: string)
    requires SpaceFree(a)
    ensures RawSplit(a + " " + b) == [a] + RawSplit(b)
    decreases |a|
  {
    if |a| == 0 {
      assert a + " " + b == [' '] + b;
      assert (a + " " + b)[1..] == b;
    } else {
      var s := a + " " + b;
      assert s[1..] == a[1..] + " " + b;
      SplitAtSpace(a[1..], b);
      assert [a[0]] + a[1..] == a;
    }
  }

  /** Joining space-free tokens and splitting again gives the tokens back. */
  lemma {:induction false} JoinThenSplit(ts: seq<string>)
    requires |ts| >= 1
    requires forall k :: 0 <= k < |ts| ==> SpaceFree(ts[k])
    ensures RawSplit(JoinSpaces(ts)) == ts
    decreases |ts|
  {
    if |ts| == 1 {
      SplitSpaceFree(ts[0]);
    } else {
      JoinThenSplit(ts[1..]);
      SplitAtSpace(ts[0], JoinSpaces(ts[1..]));
      assert [ts[0]] + ts[1..] == ts;
    }
  }

  /** Every piece is empty exactly when the text is made of spaces only. */
  lemma {:induction false} SplitAllEmpty(s: string)
    ensures (forall k :: 0 <= k < |RawSplit(s)| ==> RawSplit(s)[k] == "") <==> AllSpaces(s)
    decreases |s|
  {
    if |s| > 0 {
      SplitAllEmpty(s[1..]);
      var rest := RawSplit(s[1..]);
      if s[0] == ' ' {
        assert RawSplit(s) == [""] + rest;
        if AllSpaces(s[1..]) {
          assert forall k :: 0 <= k < |RawSplit(s)| ==> RawSplit(s)[k] == "" by {
            forall k | 0 <= k < |RawSplit(s)|
              ensures RawSplit(s)[k] == ""
            {
              if k > 0 { assert RawSplit(s)[k] == rest[k - 1]; }
            }
          }
          assert AllSpaces(s) by {
            forall i | 0 <= i < |s| ensures s[i] == ' ' {
              if i > 0 { assert s[i] == s[1..][i - 1]; }
            }
          }
        } else {
          var i :| 0 <= i < |s[1..]| && s[1..][i] != ' ';
          assert s[i + 1] != ' ';
          var k :| 0 <= k < |rest| && rest[k] != "";
          assert RawSplit(s)[k + 1] == rest[k];
        }
      } else {
        assert RawSplit(s)[0] == [s[0]] + rest[0];
        assert RawSplit(s)[0] != "";
      }
    }
  }

  /** Without a space the text comes back as the only token; in particular
      the empty text gives one empty token. */
  lemma JavaSplitNoSpace(s: string)
    requires SpaceFree(s)
    ensures JavaSplit(s) == [s]
    ensures s == "" ==> JavaSplit(s) == [""]
  {
  }

  /** Java's split keeps a prefix of the pieces, and only empty pieces are
      dropped. */
  lemma JavaSplitDropsOnlyEmpty(s: string)
    ensures JavaSplit(s) == RawSplit(s)[..|JavaSplit(s)|]
    ensures forall k :: |JavaSplit(s)| <= k < |RawSplit(s)| ==> RawSplit(s)[k] == ""
  {
    if SpaceFree(s) { SplitSpaceFree(s); }
  }

  /** No tokens at all exactly for a non-empty text made of spaces only. */
  lemma JavaSplitEmptyIff(s: string)
    ensures JavaSplit(s) == [] <==> (|s| > 0 && AllSpaces(s))
  {
    SplitAllEmpty(s);
    if !SpaceFree(s) {
      var r := RawSplit(s);
      var t := DropTrailingEmpty(r);
      assert JavaSplit(s) == t;
      if AllSpaces(s) {
        assert forall k :: 0 <= k < |RawSplit(s)| ==> RawSplit(s)[k] == "";
      } else {
        var k :| 0 <= k < |r| && r[k] != "";
        assert |t| > k;
      }
    } else if |s| > 0 {
      assert s[0] != ' ';
    }
  }

  /** The last token of a non-empty text is never empty. */
  lemma JavaSplitLastNonEmpty(s: string)
    requires s != "" && |JavaSplit(s)| > 0
    ensures JavaSplit(s)[|JavaSplit(s)| - 1] != ""
  {
  }

  // ---- Integer.toString for the non-negative values the engine prints ----

  function DigitChar(d: nat): (c: char)
    requires d < 10
    ensures '0' <= c <= '9'
  {
    "0123456789"[d]
  }

  function DigitValue(c: char): nat {
    if '0' <= c <= '9' then (c - '0') as nat else 0
  }

  /** The decimal digits of `n`, most significant first, without leading
      zeros. */
  function DecimalString(n: nat): (s: string)
    ensures |s| >= 1
    ensures forall i :: 0 <= i < |s| ==> '0' <= s[i] <= '9'
    decreases n
  {
    if n < 10 then [DigitChar(n)] else DecimalString(n / 10) + [DigitChar(n % 10)]
  }

  /** The value a string of decimal digits denotes. */
  function DecimalValue(s: string): nat {
    if |s| == 0 then 0 else 10 * DecimalValue(s[..|s| - 1]) + DigitValue(s[|s| - 1])
  }

  /** Reading the printed number back gives the number, and there is no
      leading zero. */
  lemma {:induction false} DecimalRoundTrip(n: nat)
    ensures DecimalValue(DecimalString(n)) == n
    ensures DecimalString(n)[0] != '0' || n == 0
    decreases n
  {
    if n >= 10 {
      DecimalRoundTrip(n / 10);
      var s := DecimalString(n);
      assert s[..|s| - 1] == DecimalString(n / 10);
      DigitRoundTrip(n % 10);
      assert s[|s| - 1] == DigitChar(n % 10);
      assert n == 10 * (n / 10) + n % 10;
    } else {
      DigitRoundTrip(n);
    }
  }

  lemma DigitRoundTrip(d: nat)
    requires d < 10
    ensures DigitValue(DigitChar(d)) == d
    ensures DigitChar(d) == '0' <==> d == 0
  {
  }
}
