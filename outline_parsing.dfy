/** Reading the list of source pages out of a generated document outline, and removing it
    from the outline text. Two regular expressions are tried: a list fenced in triple
    backquotes, and, when the outline has both a `[` and a `]`, a bare bracketed list. Each
    pattern is modelled by a scanner that follows the regular-expression engine's
    backtracking order exactly. */
module OutlineParsing {
  import opened Wrappers
  import opened Strings

  // ---------------------------------------------------------------- character runs

  /** `\s*` from `i`: the end of the longest run of whitespace. */
  function SkipSpace(s: string, i: nat): (j: nat)
    requires i <= |s|
    ensures i <= j <= |s|
    ensures forall k {:trigger IsSpace(s[k])} :: i <= k < j ==> IsSpace(s[k])
    ensures j == |s| || !IsSpace(s[j])
    decreases |s| - i
  {
    if i < |s| && IsSpace(s[i]) then SkipSpace(s, i + 1) else i
  }

  /** `\d*` from `i`: the end of the longest run of ASCII digits. */
  function SkipDigits(s: string, i: nat): (j: nat)
    requires i <= |s|
    ensures i <= j <= |s|
    ensures forall k {:trigger IsDigit(s[k])} :: i <= k < j ==> IsDigit(s[k])
    ensures j == |s| || !IsDigit(s[j])
    decreases |s| - i
  {
    if i < |s| && IsDigit(s[i]) then SkipDigits(s, i + 1) else i
  }

  /** A character that can stand inside a matched page list. */
  predicate ListChar(c: char) {
    IsDigit(c) || c == ',' || IsSpace(c)
  }

  /** `\d+(?:,\s*\d+)*` from `i`: the values of the numbers and where the list ends. The
      group repeats greedily; a repetition that does not complete is given back, so a
      trailing `,` is left for what follows the list. */
  function DigitList(s: string, i: nat): (r: Option<(seq<nat>, nat)>)
    requires i <= |s|
    ensures r.None? <==> (i == |s| || !IsDigit(s[i]))
    ensures r.Some? ==> |r.value.0| >= 1 && i < r.value.1 <= |s|
    ensures r.Some? ==> forall k {:trigger ListChar(s[k])} :: i <= k < r.value.1 ==> ListChar(s[k])
    ensures r.Some? ==> r.value.1 == |s| || !IsDigit(s[r.value.1])
    decreases |s| - i
  {
    var j := SkipDigits(s, i);
    if j == i then None
    else
      var v := DigitsValue(s[i..j]);
      if j < |s| && s[j] == ',' then
        var k := SkipSpace(s, j + 1);
        match DigitList(s, k)
        case None => Some(([v], j))
        case Some((vs, e)) => Some(([v] + vs, e))
      else Some(([v], j))
  }

  /** Three backquotes start at `i`. */
  predicate FenceAt(s: string, i: nat) {
    i + 3 <= |s| && s[i] == '`' && s[i + 1] == '`' && s[i + 2] == '`'
  }

  // ---------------------------------------------------------------- the two list patterns

  /** `\]\s*```` ` matched at `e`: the end of the closing fence. */
  function ListClose(s: string, e: nat): (r: Option<nat>)
    ensures r.Some? ==> e < |s| && s[e] == ']' && e < r.value <= |s|
  {
    if e >= |s| || s[e] != ']' then None
    else
      var b := SkipSpace(s, e + 1);
      if FenceAt(s, b) then Some(b + 3) else None
  }

  /** ```` ```\s*\[(\d+(?:,\s*\d+)*)\]\s*``` ```` matched at `p`: the page numbers and the
      end of the match. */
  function FencedListAt(s: string, p: nat): Option<(seq<nat>, nat)>
  {
    if !FenceAt(s, p) then None
    else
      var a := SkipSpace(s, p + 3);
      if a == |s| || s[a] != '[' then None
      else
        match DigitList(s, a + 1)
        case None => None
        case Some((pages, e)) =>
          match ListClose(s, e)
          case None => None
          case Some(end) => Some((pages, end))
  }

  /** `\[\s*(\d+(?:,\s*\d+)*)\s*\]` matched at `p`. */
  function BracketListAt(s: string, p: nat): Option<(seq<nat>, nat)>
  {
    if p >= |s| || s[p] != '[' then None
    else
      var a := SkipSpace(s, p + 1);
      match DigitList(s, a)
      case None => None
      case Some((pages, e)) =>
        var b := SkipSpace(s, e);
        if b < |s| && s[b] == ']' then Some((pages, b + 1)) else None
  }

  /** `re.search`: the leftmost position from `p` at which the pattern `at` matches. */
  function Search(s: string, at: (string, nat) -> Option<(seq<nat>, nat)>, p: nat): (r: Option<(nat, seq<nat>)>)
    ensures r.Some? ==> p <= r.value.0 <= |s| && at(s, r.value.0).Some? && at(s, r.value.0).value.0 == r.value.1
    ensures r.Some? ==> forall q :: p <= q < r.value.0 ==> at(s, q).None?
    ensures r.None? ==> forall q :: p <= q <= |s| ==> at(s, q).None?
    decreases |s| + 1 - p
  {
    if p > |s| then None
    else match at(s, p)
      case Some((pages, _)) => Some((p, pages))
      case None => Search(s, at, p + 1)
  }

  // ---------------------------------------------------------------- the two removal patterns

  /** The end of the lazy `.*?\]\s*```` ` from `q`: the first `]` that whitespace and a
      fence follow. */
  function CloseFence(s: string, q: nat): (r: Option<nat>)
    ensures r.Some? ==> q < r.value <= |s|
    decreases |s| - q
  {
    if q >= |s| then None
    else if ListClose(s, q).Some? then ListClose(s, q)
    else CloseFence(s, q + 1)
  }

  /** ```` ```\s*\[.*?\]\s*``` ```` with `re.DOTALL` matched at `p`: the end of the match. */
  function FencedBlockAt(s: string, p: nat): (r: Option<nat>)
    ensures r.Some? ==> p < r.value <= |s|
  {
    if !FenceAt(s, p) then None
    else
      var a := SkipSpace(s, p + 3);
      if a == |s| || s[a] != '[' then None else CloseFence(s, a + 1)
  }

  /** `\[\s*.*?\s*\]` with `re.DOTALL` matched at `p`: a `[` up to the first `]` after it. */
  function BracketBlockAt(s: string, p: nat): (r: Option<nat>)
    ensures r.Some? ==> p < r.value <= |s|
    ensures r.None? && p < |s| && s[p] == '[' ==> Excludes(s[p + 1..], ']')
  {
    if p >= |s| || s[p] != '[' then None
    else
      var rest := s[p + 1..];
      var i := IndexOf(rest, ']');
      if i < |rest| then Some(p + 2 + i) else None
  }

  /** `re.sub(pattern, '', s)` from `p`: every match, scanning left to right, is removed
      and the scan goes on after it; every other character is kept. */
  function RemoveBlocks(s: string, block: (string, nat) -> Option<nat>, p: nat): string
    decreases |s| - p
  {
    if p >= |s| then []
    else match block(s, p)
      case Some(e) =>
        if p < e <= |s| then RemoveBlocks(s, block, e) else [s[p]] + RemoveBlocks(s, block, p + 1)
      case None => [s[p]] + RemoveBlocks(s, block, p + 1)
  }

  // ---------------------------------------------------------------- the parse

  /** The page list and the outline without it: the fenced list first; the bare list only
      when the outline has both a `[` and a `]`; otherwise no pages and the outline as it
      was. */
  function ParseOutline(outline: string): (r: (seq<nat>, string))
  {
    match Search(outline, FencedListAt, 0)
    case Some((_, pages)) => (pages, RemoveBlocks(outline, FencedBlockAt, 0))
    case None =>
      if IndexOf(outline, '[') < |outline| && IndexOf(outline, ']') < |outline| then
        match Search(outline, BracketListAt, 0)
        case Some((_, pages)) => (pages, RemoveBlocks(outline, BracketBlockAt, 0))
        case None => ([], outline)
      else ([], outline)
  }

  /** The pages found are those of the leftmost match of one of the two patterns, and are
      never empty; with neither pattern matching there are no pages and the text is kept. */
  lemma ParseOutlineCases(outline: string)
    ensures var (pages, rest) := ParseOutline(outline);
      && (Search(outline, FencedListAt, 0).Some? ==>
            pages == Search(outline, FencedListAt, 0).value.1 && |pages| >= 1)
      && (Search(outline, FencedListAt, 0).None? && Search(outline, BracketListAt, 0).Some? ==>
            pages == Search(outline, BracketListAt, 0).value.1 && |pages| >= 1)
      && (pages == [] <==> rest == outline && Search(outline, FencedListAt, 0).None?
                           && Search(outline, BracketListAt, 0).None?)
  {
    var fenced := Search(outline, FencedListAt, 0);
    var bare := Search(outline, BracketListAt, 0);
    if fenced.Some? {
      FencedPages(outline, fenced.value.0);
    } else if bare.Some? {
      BracketPages(outline, bare.value.0);
    }
  }

  /** A fenced-list match reads at least one page. */
  lemma FencedPages(s: string, p: nat)
    requires FencedListAt(s, p).Some?
    ensures |FencedListAt(s, p).value.0| >= 1
  {
    assert DigitList(s, SkipSpace(s, p + 3) + 1).Some?;
  }

  /** A bare-list match reads at least one page, and the text holds both brackets. */
  lemma BracketPages(s: string, p: nat)
    requires BracketListAt(s, p).Some?
    ensures |BracketListAt(s, p).value.0| >= 1
    ensures IndexOf(s, '[') < |s| && IndexOf(s, ']') < |s|
  {
    var a := SkipSpace(s, p + 1);
    var b := SkipSpace(s, DigitList(s, a).value.1);
    assert s[p] == '[' && s[b] == ']';
    assert IndexOf(s, '[') <= p;
    assert IndexOf(s, ']') <= b;
  }

  // ---------------------------------------------------------------- the removal is a superset

  /** A `]` is not found between `q` and `e`, so the lazy scan passes over them. */
  lemma {:induction false} CloseFenceSkips(s: string, q: nat, e: nat)
    requires q <= e <= |s|
    requires forall k :: q <= k < e ==> s[k] != ']'
    ensures CloseFence(s, q) == CloseFence(s, e)
    decreases e - q
  {
    if q < e {
      CloseFenceSkips(s, q + 1, e);
    }
  }

  /** Where the fenced list matches, the removal pattern matches the same text, so the
      list that was read is among what is removed. */
  lemma FencedListRemoved(s: string, p: nat)
    requires FencedListAt(s, p).Some?
    ensures FencedBlockAt(s, p) == Some(FencedListAt(s, p).value.1)
  {
    var a := SkipSpace(s, p + 3);
    var e := DigitList(s, a + 1).value.1;
    ListSkipped(s, a + 1);
    assert FencedBlockAt(s, p) == CloseFence(s, e);
  }

  /** A matched page list holds no `]`. */
  lemma ListHasNoClose(s: string, i: nat)
    requires i <= |s| && DigitList(s, i).Some?
    ensures forall k :: i <= k < DigitList(s, i).value.1 ==> s[k] != ']'
  {
    var e := DigitList(s, i).value.1;
    forall k | i <= k < e
      ensures s[k] != ']'
    {
      assert ListChar(s[k]);
    }
  }

  /** The lazy scan for the closing `]` passes over a matched page list. */
  lemma ListSkipped(s: string, i: nat)
    requires i <= |s| && DigitList(s, i).Some?
    ensures CloseFence(s, i) == CloseFence(s, DigitList(s, i).value.1)
  {
    ListHasNoClose(s, i);
    CloseFenceSkips(s, i, DigitList(s, i).value.1);
  }

  /** Where the bare list matches, the removal pattern matches the same text. */
  lemma BracketListRemoved(s: string, p: nat)
    requires BracketListAt(s, p).Some?
    ensures BracketBlockAt(s, p) == Some(BracketListAt(s, p).value.1)
  {
    var a := SkipSpace(s, p + 1);
    var e := DigitList(s, a).value.1;
    var b := SkipSpace(s, e);
    assert s[p] == '[' && b < |s| && s[b] == ']';
    assert BracketListAt(s, p).value.1 == b + 1;
    ListHasNoClose(s, a);
    assert forall k :: p < k < a ==> IsSpace(s[k]);
    assert forall k :: e <= k < b ==> IsSpace(s[k]);
    BracketBlockOf(s, p, b);
  }

  /** A `[` whose first following `]` is at `b` starts a removed span ending after `b`. */
  lemma BracketBlockOf(s: string, p: nat, b: nat)
    requires p < b < |s| && s[p] == '[' && s[b] == ']'
    requires forall k :: p < k < b ==> s[k] != ']'
    ensures BracketBlockAt(s, p) == Some(b + 1)
  {
    var rest := s[p + 1..];
    forall k | 0 <= k < b - p - 1
      ensures rest[k] != ']'
    {
      assert rest[k] == s[p + 1 + k];
    }
    assert rest[b - p - 1] == ']';
    assert IndexOf(rest, ']') == b - p - 1;
  }

  // ---------------------------------------------------------------- what the bare removal leaves

  /** Removal only drops characters: a character absent from the scanned text stays absent. */
  lemma {:induction false} RemoveExcludes(s: string, block: (string, nat) -> Option<nat>, p: nat, c: char)
    requires forall k :: p <= k < |s| ==> s[k] != c
    ensures Excludes(RemoveBlocks(s, block, p), c)
    decreases |s| - p
  {
    if p < |s| {
      match block(s, p)
      case Some(e) =>
        if p < e <= |s| {
          RemoveExcludes(s, block, e, c);
        } else {
          RemoveExcludes(s, block, p + 1, c);
        }
      case None =>
        RemoveExcludes(s, block, p + 1, c);
    }
  }

  /** No `[` stands before a `]`. */
  predicate NoBracketPair(r: string) {
    forall i, j :: 0 <= i < j < |r| && r[i] == '[' ==> r[j] != ']'
  }

  /** After the bare removal no `[` is followed, however far on, by a `]`: every bracketed
      span is removed, not only the list that was read. */
  lemma {:induction false} BracketRemovalComplete(s: string, p: nat)
    ensures NoBracketPair(RemoveBlocks(s, BracketBlockAt, p))
    decreases |s| - p
  {
    if p < |s| {
      match BracketBlockAt(s, p)
      case Some(e) =>
        BracketRemovalComplete(s, e);
      case None =>
        var rest := RemoveBlocks(s, BracketBlockAt, p + 1);
        BracketRemovalComplete(s, p + 1);
        if s[p] == '[' {
          forall k | p + 1 <= k < |s|
            ensures s[k] != ']'
          {
            assert s[k] == s[p + 1..][k - p - 1];
          }
          RemoveExcludes(s, BracketBlockAt, p + 1, ']');
        }
        var r := [s[p]] + rest;
        forall i, j | 0 <= i < j < |r| && r[i] == '['
          ensures r[j] != ']'
        {
          if i > 0 {
            assert r[i] == rest[i - 1] && r[j] == rest[j - 1];
          } else {
            assert r[j] == rest[j - 1];
          }
        }
    }
  }
}
