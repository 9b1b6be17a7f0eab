/**
 * The two string rewrites applied to an LLM's reply before it is validated,
 * shared by alerts.py and actuator.py:
 *
 *  - `re.sub(r".*?({.*}).*", r"\1", reply, flags=re.DOTALL)`, which keeps the
 *    reply from its first `{` through its last `}`;
 *  - the "no action" test of actuator.py, `not reply or re.match(r"\[\s*\]", reply)`.
 *
 * Each regular expression is mirrored by a small matcher that works the way
 * the regex engine does (lazy and greedy repetition, backtracking), and its
 * contract states the match in terms of character positions.
 */
module LlmReply {
  import opened Wrappers

  /** Python's `\s` on str patterns: the characters for which `str.isspace()` holds. */
  predicate IsSpace(c: char) {
    || c == ' '
    || '\t' <= c <= '\r'
    || '\U{1C}' <= c <= '\U{1F}'
    || c == '\U{85}' || c == '\U{A0}' || c == '\U{1680}'
    || '\U{2000}' <= c <= '\U{200A}'
    || c == '\U{2028}' || c == '\U{2029}' || c == '\U{202F}' || c == '\U{205F}' || c == '\U{3000}'
  }

  /** The position of the first `c` in `s`, if any. */
  function FirstIndex(s: string, c: char): (r: Option<nat>)
    ensures r.Some? ==> r.value < |s| && s[r.value] == c && forall k :: 0 <= k < r.value ==> s[k] != c
    ensures r.None? ==> forall k :: 0 <= k < |s| ==> s[k] != c
  {
    if s == [] then None
    else if s[0] == c then Some(0)
    else match FirstIndex(s[1..], c) {
      case None => None
      case Some(i) => Some(i + 1)
    }
  }

  /** The position of the last `c` in `s`, if any. */
  function LastIndex(s: string, c: char): (r: Option<nat>)
    ensures r.Some? ==> r.value < |s| && s[r.value] == c && forall k :: r.value < k < |s| ==> s[k] != c
    ensures r.None? ==> forall k :: 0 <= k < |s| ==> s[k] != c
    decreases |s|
  {
    if s == [] then None
    else if s[|s| - 1] == c then Some(|s| - 1)
    else LastIndex(s[..|s| - 1], c)
  }

  /** The reply holds a `{` followed, somewhere later, by a `}`. */
  predicate HasBracePair(s: string) {
    && FirstIndex(s, '{').Some?
    && LastIndex(s, '}').Some?
    && FirstIndex(s, '{').value < LastIndex(s, '}').value
  }

  /**
   * Greedy `.*}` tried against `s[from..]`: `.*` first takes everything up to
   * `end`, then gives back one character at a time until a `}` follows.
   */
  function GreedyClose(s: string, from: nat, end: nat): (r: Option<nat>)
    requires from <= end <= |s|
    ensures r.Some? ==> from <= r.value < end && s[r.value] == '}'
    ensures r.Some? ==> forall m :: r.value < m < end ==> s[m] != '}'
    ensures r.None? ==> forall m :: from <= m < end ==> s[m] != '}'
    decreases end
  {
    if end == from then None
    else if s[end - 1] == '}' then Some(end - 1)
    else GreedyClose(s, from, end - 1)
  }

  /**
   * Lazy `.*?` followed by `{.*}`: the prefix skipped grows one character at
   * a time from `k` until `{` and a greedy `.*}` match after it.
   */
  function LazyOpen(s: string, k: nat): (r: Option<(nat, nat)>)
    requires k <= |s|
    ensures r.Some? ==> k <= r.value.0 < r.value.1 < |s| && s[r.value.0] == '{' && s[r.value.1] == '}'
    ensures r.Some? ==> (forall m :: k <= m < r.value.0 ==> s[m] != '{')
    ensures r.Some? ==> (forall m :: r.value.1 < m < |s| ==> s[m] != '}')
    ensures r.None? ==> forall m, n :: k <= m < n < |s| ==> s[m] != '{' || s[n] != '}'
    decreases |s| - k
  {
    if k == |s| then None
    else if s[k] == '{' && GreedyClose(s, k + 1, |s|).Some? then Some((k, GreedyClose(s, k + 1, |s|).value))
    else LazyOpen(s, k + 1)
  }

  /**
   * The brace-extraction rewrite: the reply from its first `{` through its last
   * `}` when a `}` follows the first `{`, the reply unchanged otherwise.
   */
  function ExtractBraces(s: string): (r: string)
    ensures HasBracePair(s) ==> r == s[FirstIndex(s, '{').value..LastIndex(s, '}').value + 1]
    ensures !HasBracePair(s) ==> r == s
  {
    match LazyOpen(s, 0)
    case None => s
    case Some((i, j)) => s[i..j + 1]
  }

  /** Extraction is idempotent: a cleaned reply already begins with its first `{` and ends with its last `}`. */
  lemma ExtractBracesIdempotent(s: string)
    ensures ExtractBraces(ExtractBraces(s)) == ExtractBraces(s)
  {
    if HasBracePair(s) {
      var r := ExtractBraces(s);
      var i, j := FirstIndex(s, '{').value, LastIndex(s, '}').value;
      assert FirstIndex(r, '{') == Some(0);
      assert LastIndex(r, '}') == Some(|r| - 1);
      assert r[0..|r|] == r;
    }
  }

  /** The cleaned reply is one contiguous stretch of the reply. */
  lemma ExtractBracesIsSubstring(s: string)
    ensures exists a, b :: 0 <= a <= b <= |s| && ExtractBraces(s) == s[a..b]
  {
    if HasBracePair(s) {
      var i, j := FirstIndex(s, '{').value, LastIndex(s, '}').value;
      assert ExtractBraces(s) == s[i..j + 1];
    } else {
      assert ExtractBraces(s) == s[0..|s|];
    }
  }

  /** When the reply holds a brace pair, the cleaned reply starts with `{` and ends with `}`. */
  lemma ExtractBracesShape(s: string)
    requires HasBracePair(s)
    ensures |ExtractBraces(s)| >= 2
    ensures ExtractBraces(s)[0] == '{' && ExtractBraces(s)[|ExtractBraces(s)| - 1] == '}'
  {
  }

  /** `\s*` from position `i`: the first position at or after `i` that is not whitespace. */
  function SkipSpace(s: string, i: nat): (j: nat)
    requires i <= |s|
    ensures i <= j <= |s|
    ensures forall k :: i <= k < j ==> IsSpace(s[k])
    ensures j < |s| ==> !IsSpace(s[j])
    decreases |s| - i
  {
    if i == |s| || !IsSpace(s[i]) then i else SkipSpace(s, i + 1)
  }

  /**
   * The "no action" reply: empty, or `[`, any run of whitespace, then `]` at
   * its start (`re.match` anchors only at the start; anything may follow).
   */
  function IsNoActionReply(s: string): (b: bool)
    ensures b <==> s == [] ||
                   (s[0] == '[' && exists k :: 1 <= k < |s| && s[k] == ']' && forall m :: 1 <= m < k ==> IsSpace(s[m]))
  {
    if s == [] then true
    else
      var j := SkipSpace(s, 1);
      assert forall k :: 1 <= k < |s| && s[k] == ']' && (forall m :: 1 <= m < k ==> IsSpace(s[m])) ==> k == j;
      s[0] == '[' && j < |s| && s[j] == ']'
  }
}
