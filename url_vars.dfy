/** Reading a configuration variable from the page URL (app/webutil.js:26-61).

    `getQueryVar` matches `.*[?&]NAME=([^&#]*)` against the whole `href`, and
    `getHashVar` matches `.*[&#]NAME=([^&]*)` against the fragment (`hash`).
    The regular expression is modelled as the search a backtracking engine
    performs: start positions are tried from the left, and from each start the
    greedy `.*` (which matches any character except a line terminator) gives
    back one character at a time until `[leads]NAME=` follows it. `Chosen`
    states declaratively which occurrence that search picks. */
module UrlVars {
  import opened Optional

  /** The characters a regular-expression `.` does not match. */
  predicate IsLineTerminator(c: char) {
    c == '\n' || c == '\r' || c == '\U{2028}' || c == '\U{2029}'
  }

  /** h[a..b] holds no line terminator, so one `.*` can span it. */
  predicate SingleLine(h: string, a: int, b: int)
    requires 0 <= a <= b <= |h|
  {
    forall k :: a <= k < b ==> !IsLineTerminator(h[k])
  }

  /** The characters that may precede the name: `[?&]` and `[&#]`. */
  const QueryLeads: set<char> := {'?', '&'}
  const HashLeads: set<char> := {'&', '#'}

  /** The characters that end the value: `[^&#]*` and `[^&]*`. */
  const QueryStops: set<char> := {'&', '#'}
  const HashStops: set<char> := {'&'}

  /** `[leads]NAME=` occurs in h starting at position q. */
  predicate KeyAt(h: string, name: string, leads: set<char>, q: int) {
    && 0 <= q
    && q + |name| + 2 <= |h|
    && h[q] in leads
    && h[q + 1..q + 1 + |name|] == name
    && h[q + 1 + |name|] == '='
  }

  /** Where a `.*` started at i must stop: the next line terminator, or the end. */
  function LineEnd(h: string, i: nat): (r: nat)
    requires i <= |h|
    ensures i <= r <= |h| && SingleLine(h, i, r)
    ensures r < |h| ==> IsLineTerminator(h[r])
    decreases |h| - i
  {
    if i == |h| || IsLineTerminator(h[i]) then i else LineEnd(h, i + 1)
  }

  /** Backtracking of the greedy `.*`: the key is tried at j, j - 1, ..., i. */
  function Backtrack(h: string, name: string, leads: set<char>, i: nat, j: nat): (r: Option<nat>)
    requires i <= j <= |h|
    ensures r.Some? ==> i <= r.value <= j && KeyAt(h, name, leads, r.value)
    ensures r.Some? ==> forall q :: r.value < q <= j ==> !KeyAt(h, name, leads, q)
    ensures r.None? ==> forall q :: i <= q <= j ==> !KeyAt(h, name, leads, q)
    decreases j - i
  {
    if KeyAt(h, name, leads, j) then Some(j)
    else if j == i then None
    else Backtrack(h, name, leads, i, j - 1)
  }

  /** The regular-expression search from start position i onwards. A match is
      the pair (start of the match, position of the key). */
  function Search(h: string, name: string, leads: set<char>, i: nat): (r: Option<(nat, nat)>)
    requires i <= |h|
    ensures r.None? ==> forall q :: i <= q ==> !KeyAt(h, name, leads, q)
    ensures r.Some? ==>
      var (s, q) := r.value;
      && i <= s <= q <= |h|
      && KeyAt(h, name, leads, q)
      && SingleLine(h, s, q)
      && (forall p :: i <= p < s ==> !KeyAt(h, name, leads, p))
      && (forall p :: q < p <= LineEnd(h, s) ==> !KeyAt(h, name, leads, p))
    decreases |h| - i
  {
    var b := Backtrack(h, name, leads, i, LineEnd(h, i));
    if b.Some? then Some((i, b.value))
    else if i == |h| then None
    else Search(h, name, leads, i + 1)
  }

  /** The occurrence the regular expression picks, stated without the search:
      the rightmost key on the first line that holds a key. */
  ghost predicate Chosen(h: string, name: string, leads: set<char>, q: int) {
    && KeyAt(h, name, leads, q)
    && (forall p :: 0 <= p < q && KeyAt(h, name, leads, p) ==> SingleLine(h, p, q))
    && (forall p :: q < p && KeyAt(h, name, leads, p) ==> !SingleLine(h, q, p))
  }

  /** At most one occurrence is chosen. */
  lemma ChosenUnique(h: string, name: string, leads: set<char>, q1: int, q2: int)
    requires Chosen(h, name, leads, q1) && Chosen(h, name, leads, q2)
    ensures q1 == q2
  {
  }

  /** A `.*` started at i reaches every position up to which the text stays on one line. */
  lemma LineEndReaches(h: string, i: nat, p: nat)
    requires i <= p <= |h|
    ensures SingleLine(h, i, p) ==> p <= LineEnd(h, i)
  {
    var e := LineEnd(h, i);
    if e < p {
      assert IsLineTerminator(h[e]);
    }
  }

  /** Two adjacent single-line stretches make one. */
  lemma SingleLineJoin(h: string, a: int, b: int, c: int)
    requires 0 <= a <= b <= c <= |h|
    ensures SingleLine(h, a, b) && SingleLine(h, b, c) ==> SingleLine(h, a, c)
  {
  }

  /** The search from position 0 finds exactly the chosen occurrence. */
  lemma SearchFindsChosen(h: string, name: string, leads: set<char>)
    ensures Search(h, name, leads, 0).None? <==> forall q :: !KeyAt(h, name, leads, q)
    ensures Search(h, name, leads, 0).Some? ==> Chosen(h, name, leads, Search(h, name, leads, 0).value.1)
  {
    var r := Search(h, name, leads, 0);
    if r.Some? {
      var (s, q) := r.value;
      forall p | 0 <= p < q && KeyAt(h, name, leads, p)
        ensures SingleLine(h, p, q)
      {
        assert s <= p;
      }
      forall p | q < p && KeyAt(h, name, leads, p)
        ensures !SingleLine(h, q, p)
      {
        SingleLineJoin(h, s, q, p);
        LineEndReaches(h, s, p);
      }
    }
  }

  /** The captured group: from v, everything up to the first stop character. */
  function Value(h: string, v: nat, stops: set<char>): (w: string)
    requires v <= |h|
    ensures w <= h[v..]
    ensures forall k :: 0 <= k < |w| ==> w[k] !in stops
    ensures v + |w| == |h| || h[v + |w|] in stops
    decreases |h| - v
  {
    if v == |h| || h[v] in stops then "" else [h[v]] + Value(h, v + 1, stops)
  }

  /** Whenever the key occurs, some occurrence is the chosen one. */
  lemma ChosenExists(h: string, name: string, leads: set<char>)
    ensures (exists q :: KeyAt(h, name, leads, q)) ==> exists q :: Chosen(h, name, leads, q)
  {
    SearchFindsChosen(h, name, leads);
  }

  /** The raw value the regular expression captures, if it matches: nothing
      exactly when the key never occurs, and otherwise the value that follows
      the chosen occurrence. */
  function Lookup(h: string, name: string, leads: set<char>, stops: set<char>): (r: Option<string>)
    ensures r.None? <==> forall q :: !KeyAt(h, name, leads, q)
    ensures forall q :: Chosen(h, name, leads, q) ==> r == Some(Value(h, q + |name| + 2, stops))
  {
    SearchFindsChosen(h, name, leads);
    match Search(h, name, leads, 0)
    case None => None
    case Some((_, q)) => Some(Value(h, q + |name| + 2, stops))
  }

  /** getQueryVar (app/webutil.js:27-37), without decodeURIComponent: the
      value after the chosen `?NAME=` or `&NAME=`, up to the first `&` or
      `#`, and the default when no such key occurs. */
  function GetQueryVar(href: string, name: string, defVal: Option<string>): (r: Option<string>)
    ensures (forall q :: !KeyAt(href, name, QueryLeads, q)) ==> r == defVal
    ensures forall q :: Chosen(href, name, QueryLeads, q) ==>
      r == Some(Value(href, q + |name| + 2, QueryStops))
  {
    match Lookup(href, name, QueryLeads, QueryStops)
    case Some(v) => Some(v)
    case None => defVal
  }

  /** getHashVar (app/webutil.js:40-50), without decodeURIComponent: the
      value after the chosen `#NAME=` or `&NAME=`, up to the first `&`, and
      the default when no such key occurs. */
  function GetHashVar(hash: string, name: string, defVal: Option<string>): (r: Option<string>)
    ensures (forall q :: !KeyAt(hash, name, HashLeads, q)) ==> r == defVal
    ensures forall q :: Chosen(hash, name, HashLeads, q) ==>
      r == Some(Value(hash, q + |name| + 2, HashStops))
  {
    match Lookup(hash, name, HashLeads, HashStops)
    case Some(v) => Some(v)
    case None => defVal
  }

  /** getConfigVar (app/webutil.js:54-61): a key in the fragment wins,
      whatever the query says; without one the query value or the default
      is returned. */
  function GetConfigVar(href: string, hash: string, name: string, defVal: Option<string>): (r: Option<string>)
    ensures forall q :: Chosen(hash, name, HashLeads, q) ==>
      r == Some(Value(hash, q + |name| + 2, HashStops))
    ensures (forall q :: !KeyAt(hash, name, HashLeads, q)) ==> r == GetQueryVar(href, name, defVal)
  {
    var val := GetHashVar(hash, name, None);
    if val.None? then GetQueryVar(href, name, defVal) else val
  }
}
