/**
 * `applyMatchRef`: fills a target-path template from the captures of the
 * match that selected it. Every `$` followed by one or more ASCII digits is
 * one reference; the digits, read as a decimal number `n`, name `arr[n]`
 * (`arr[0]` is the whole match, `arr[1]` the first group). The reference is
 * replaced by that capture when it exists and is not empty, and kept as
 * written otherwise. The scan runs left to right and resumes after each
 * reference, as a global regular-expression replace does.
 */
module MatchRef {
  import opened Wrappers

  /** A match as the host returns it: index 0 the whole match, a group that did not take part is `None`. */
  type Captures = seq<Option<string>>

  predicate IsDigit(c: char) {
    '0' <= c <= '9'
  }

  /** `s` starts with a reference: a `$` and then a digit. */
  predicate StartsRef(s: string) {
    |s| > 1 && s[0] == '$' && IsDigit(s[1])
  }

  /** The length of the run of digits `s` starts with. */
  function DigitRun(s: string): (n: nat)
    ensures n <= |s|
  {
    if |s| > 0 && IsDigit(s[0]) then 1 + DigitRun(s[1..]) else 0
  }

  /** `DigitRun` is what greedy `\d+` consumes: only digits, and no digit right after. */
  lemma {:induction false} DigitRunIsGreedy(s: string)
    ensures forall i :: 0 <= i < DigitRun(s) ==> IsDigit(s[i])
    ensures DigitRun(s) == |s| || !IsDigit(s[DigitRun(s)])
  {
    if |s| > 0 && IsDigit(s[0]) {
      DigitRunIsGreedy(s[1..]);
      forall i | 0 < i < DigitRun(s) ensures IsDigit(s[i]) {
        assert s[i] == s[1..][i - 1];
      }
    }
  }

  /** `Number(digits)` for a string of decimal digits (leading zeros allowed). */
  function DecimalValue(digits: string): (v: int)
    ensures (forall i :: 0 <= i < |digits| ==> IsDigit(digits[i])) ==> 0 <= v
    ensures |digits| == 1 ==> v == digits[0] as int - '0' as int
  {
    if |digits| == 0 then 0
    else 10 * DecimalValue(digits[..|digits| - 1]) + (digits[|digits| - 1] as int - '0' as int)
  }

  /** A capture is used only when it is truthy: present and non-empty. */
  predicate Truthy(arr: Captures, n: int) {
    0 <= n < |arr| && arr[n].Some? && arr[n].value != ""
  }

  /**
   * The replacement for one reference `$digits`: a truthy capture, or else
   * the reference itself. It is never empty, so a reference never vanishes.
   */
  function Substitute(digits: string, arr: Captures): (r: string)
    ensures r != ""
    ensures r == ['$'] + digits || exists n :: 0 <= n < |arr| && arr[n] == Some(r)
  {
    var n := DecimalValue(digits);
    if Truthy(arr, n) then arr[n].value else ['$'] + digits
  }

  /** Every reference `$digits` of the template replaced, left to right. */
  function ApplyMatchRef(s: string, arr: Captures): string
    decreases |s|
  {
    if |s| == 0 then ""
    else if StartsRef(s) then
      var n := 1 + DigitRun(s[1..]);
      Substitute(s[1..n], arr) + ApplyMatchRef(s[n..], arr)
    else
      [s[0]] + ApplyMatchRef(s[1..], arr)
  }

  /** A non-empty template never becomes empty: no replacement is empty. */
  lemma {:induction false} OutputEmptyOnlyForEmpty(s: string, arr: Captures)
    ensures ApplyMatchRef(s, arr) == "" <==> s == ""
    decreases |s|
  {
    if |s| > 0 && !StartsRef(s) {
      assert ApplyMatchRef(s, arr)[0] == s[0];
    }
  }

  /** `s` holds no reference: no `$` is followed by a digit. */
  predicate NoRefs(s: string) {
    forall i :: 0 <= i < |s| - 1 && s[i] == '$' ==> !IsDigit(s[i + 1])
  }

  lemma NoRefsTail(s: string)
    requires |s| > 0 && NoRefs(s)
    ensures NoRefs(s[1..]) && !StartsRef(s)
  {
    forall i | 0 <= i < |s[1..]| - 1 && s[1..][i] == '$' ensures !IsDigit(s[1..][i + 1]) {
      assert s[1..][i] == s[i + 1] && s[1..][i + 1] == s[i + 2];
    }
  }

  /** A template without references comes back unchanged. */
  lemma {:induction false} NoRefsUnchanged(s: string, arr: Captures)
    requires NoRefs(s)
    ensures ApplyMatchRef(s, arr) == s
  {
    if |s| > 0 {
      NoRefsTail(s);
      NoRefsUnchanged(s[1..], arr);
      assert s == [s[0]] + s[1..];
    }
  }

  /** When no capture is truthy every reference stays literally, so the template comes back unchanged. */
  lemma {:induction false} NoTruthyCaptureUnchanged(s: string, arr: Captures)
    requires forall n :: !Truthy(arr, n)
    ensures ApplyMatchRef(s, arr) == s
  {
    if |s| > 0 {
      if StartsRef(s) {
        var n := 1 + DigitRun(s[1..]);
        NoTruthyCaptureUnchanged(s[n..], arr);
        assert s == [s[0]] + s[1..];
        assert s[1..] == s[1..n] + s[n..];
      } else {
        NoTruthyCaptureUnchanged(s[1..], arr);
        assert s == [s[0]] + s[1..];
      }
    }
  }

  /** The first character of reference-free text `pre` is copied, whatever follows it (within the boundary condition). */
  lemma HeadLiteral(pre: string, t: string, arr: Captures)
    requires |pre| > 0 && NoRefs(pre)
    requires t == [] || pre[|pre| - 1] != '$' || !IsDigit(t[0])
    ensures ApplyMatchRef(pre + t, arr) == [pre[0]] + ApplyMatchRef(pre[1..] + t, arr)
  {
    var s := pre + t;
    NoRefsTail(pre);
    assert s[1..] == pre[1..] + t;
    if |pre| > 1 {
      assert s[1] == pre[1];
    }
    assert !StartsRef(s);
  }

  /**
   * Text without references passes through untouched and does not disturb
   * what follows, unless its last `$` would join a digit after it.
   */
  lemma {:induction false} LiteralPrefix(pre: string, t: string, arr: Captures)
    requires NoRefs(pre)
    requires pre == [] || t == [] || pre[|pre| - 1] != '$' || !IsDigit(t[0])
    ensures ApplyMatchRef(pre + t, arr) == pre + ApplyMatchRef(t, arr)
  {
    if |pre| == 0 {
      assert pre + t == t;
    } else {
      NoRefsTail(pre);
      calc {
        ApplyMatchRef(pre + t, arr);
        { HeadLiteral(pre, t, arr); }
        [pre[0]] + ApplyMatchRef(pre[1..] + t, arr);
        { LiteralPrefix(pre[1..], t, arr); }
        [pre[0]] + (pre[1..] + ApplyMatchRef(t, arr));
        { assert [pre[0]] + pre[1..] == pre; }
        pre + ApplyMatchRef(t, arr);
      }
    }
  }

  lemma {:induction false} DigitRunOfRef(digits: string, post: string)
    requires forall i :: 0 <= i < |digits| ==> IsDigit(digits[i])
    requires post == [] || !IsDigit(post[0])
    ensures DigitRun(digits + post) == |digits|
  {
    if |digits| > 0 {
      assert (digits + post)[1..] == digits[1..] + post;
      DigitRunOfRef(digits[1..], post);
    } else {
      assert digits + post == post;
    }
  }

  /** A template that starts with a reference `$digits` not followed by another digit. */
  lemma LeadingRef(digits: string, post: string, arr: Captures)
    requires |digits| > 0 && forall i :: 0 <= i < |digits| ==> IsDigit(digits[i])
    requires post == [] || !IsDigit(post[0])
    ensures ApplyMatchRef(['$'] + digits + post, arr) == Substitute(digits, arr) + ApplyMatchRef(post, arr)
  {
    var t := ['$'] + digits + post;
    assert t[1..] == digits + post;
    DigitRunOfRef(digits, post);
    assert t[1..1 + |digits|] == digits && t[1 + |digits|..] == post;
    assert StartsRef(t);
  }

  /**
   * One reference `$digits` between literal text is replaced by its
   * substitute and nothing else changes: `pre` has no reference and the
   * digits are not followed by another digit. The substitute is the
   * capture the digits name when that capture is truthy, else the
   * reference as written.
   */
  lemma OneRef(pre: string, digits: string, post: string, arr: Captures)
    requires NoRefs(pre)
    requires |digits| > 0 && forall i :: 0 <= i < |digits| ==> IsDigit(digits[i])
    requires post == [] || !IsDigit(post[0])
    ensures ApplyMatchRef(pre + ['$'] + digits + post, arr) == pre + (Substitute(digits, arr) + ApplyMatchRef(post, arr))
    ensures Truthy(arr, DecimalValue(digits)) ==> Substitute(digits, arr) == arr[DecimalValue(digits)].value
    ensures !Truthy(arr, DecimalValue(digits)) ==> Substitute(digits, arr) == ['$'] + digits
  {
    var t := ['$'] + digits + post;
    calc {
      ApplyMatchRef(pre + ['$'] + digits + post, arr);
      { assert pre + ['$'] + digits + post == pre + t; }
      ApplyMatchRef(pre + t, arr);
      { LiteralPrefix(pre, t, arr); }
      pre + ApplyMatchRef(t, arr);
      { LeadingRef(digits, post, arr); }
      pre + (Substitute(digits, arr) + ApplyMatchRef(post, arr));
    }
  }

  /** The template of the markup test: `dist/$1.html` matched as `index.js` / `index`. */
  lemma FirstGroupExample()
    ensures ApplyMatchRef("dist/$1.html", [Some("index.js"), Some("index")]) == "dist/index.html"
  {
    var arr: Captures := [Some("index.js"), Some("index")];
    calc {
      ApplyMatchRef("dist/$1.html", arr);
      { assert "dist/$1.html" == "dist/" + ['$'] + "1" + ".html"; }
      ApplyMatchRef("dist/" + ['$'] + "1" + ".html", arr);
      { OneRef("dist/", "1", ".html", arr); }
      "dist/" + (Substitute("1", arr) + ApplyMatchRef(".html", arr));
      { assert DecimalValue("1") == 1; assert Truthy(arr, 1); }
      "dist/" + ("index" + ApplyMatchRef(".html", arr));
      { NoRefsUnchanged(".html", arr); }
      "dist/" + ("index" + ".html");
      "dist/index.html";
    }
  }
}
