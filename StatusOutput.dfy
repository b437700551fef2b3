/**
  The reading of `vagrant status` output (vagrant.py:186-226): the two regular
  expressions written out as string predicates with the priorities of Python's
  backtracking `re` engine, the three-state line scanner as a fold over the lines,
  and what the scanner guarantees about the map it builds.
*/
module StatusOutput {
  import opened Wrappers
  import opened Text

  // The machine states vagrant reports (vagrant.py:191-196).
  const Running := "running"          // after `vagrant up`
  const NotCreated := "not created"   // after `vagrant destroy`
  const PowerOff := "poweroff"        // after `vagrant halt`
  const Aborted := "aborted"
  const Saved := "saved"              // after `vagrant suspend`
  const Statuses: seq<string> := [Running, NotCreated, PowerOff, Aborted, Saved]

  /** The stripped line starts with `Current VM states:` or `Current machine states:`. */
  predicate IsHeaderLine(line: string) {
    var s := Strip(line);
    StartsWith(s, "Current VM states:") || StartsWith(s, "Current machine states:")
  }

  predicate IsBlank(line: string) {
    Strip(line) == ""
  }

  predicate AllKnown(statuses: map<string, string>) {
    forall name :: name in statuses ==> statuses[name] in Statuses
  }

  // ---------------------------------------------------------------------------
  // The provider pattern  ^\s*(?P<value>.+?)\s+\((?P<provider>[^)]+)\)\s*$
  // ---------------------------------------------------------------------------

  /**
    The tail `\s+\([^)]+\)\s*$` of the provider pattern matches `r` with the space
    run ending at `open` (the `(`) and the provider ending at `close` (the `)`).
  */
  ghost predicate ProviderTailAt(r: string, open: nat, close: nat) {
    && 1 <= open && open + 1 < close < |r|
    && AllSpace(r[..open]) && r[open] == '('
    && (forall p :: open < p < close ==> r[p] != ')')
    && r[close] == ')' && AllSpace(r[close + 1..])
  }

  /** The same tail test, computed: the space run, an opening `(`, then the first `)`. */
  predicate HasProviderTail(r: string) {
    var open := SpaceRun(r, 0);
    && 1 <= open < |r| && r[open] == '('
    && var close := IndexOf(r, ')', open + 1);
    && open + 1 < close < |r| && AllSpace(r[close + 1..])
  }

  /** The computed tail test accepts exactly the strings the tail pattern matches. */
  lemma {:induction false} ProviderTailExact(r: string)
    ensures HasProviderTail(r) <==> exists open: nat, close: nat :: ProviderTailAt(r, open, close)
  {
    SpaceRunSpec(r, 0);
    if HasProviderTail(r) {
      var open := SpaceRun(r, 0);
      IndexOfSpec(r, ')', open + 1);
      assert ProviderTailAt(r, open, IndexOf(r, ')', open + 1));
    }
    if exists open: nat, close: nat :: ProviderTailAt(r, open, close) {
      var open: nat, close: nat :| ProviderTailAt(r, open, close);
      ProviderTailFound(r, open, close);
    }
  }

  /**
    The provider pattern matches `line` with `\s*` taking the first `k` characters and
    the value the next `len` (`.` takes any character but a newline).
  */
  predicate ProviderMatchAt(line: string, k: nat, len: nat) {
    && 1 <= len && k + len <= |line|
    && AllSpace(line[..k]) && '\n' !in line[k..k + len]
    && HasProviderTail(line[k + len..])
  }

  /** The lazy `.+?`: the shortest value length, from `len` on, with which the rest matches. */
  function LazyValue(line: string, k: nat, len: nat): (r: Option<nat>)
    requires 1 <= len && k + len <= |line| + 1
    requires AllSpace(line[..k]) && '\n' !in line[k..k + len - 1]
    ensures r.Some? ==> len <= r.value && ProviderMatchAt(line, k, r.value)
    ensures forall n: nat :: len <= n && (r.None? || n < r.value) ==> !ProviderMatchAt(line, k, n)
    decreases |line| + 1 - len
  {
    if k + len > |line| then None
    else if line[k + len - 1] == '\n' then
      assert forall n: nat :: len <= n ==> !ProviderMatchAt(line, k, n) by {
        forall n: nat | len <= n ensures !ProviderMatchAt(line, k, n) {
          if k + n <= |line| {
            assert line[k..k + n][len - 1] == '\n';
          }
        }
      }
      None
    else
      assert line[k..k + len] == line[k..k + len - 1] + [line[k + len - 1]];
      if HasProviderTail(line[k + len..]) then Some(len) else LazyValue(line, k, len + 1)
  }

  /** The greedy `\s*`: it gives back one space at a time until the rest of the pattern matches. */
  function BacktrackSpace(line: string, k: nat): (r: Option<(nat, nat)>)
    requires k <= |line| && AllSpace(line[..k])
    ensures r.Some? ==> r.value.0 + r.value.1 <= |line| && HasProviderTail(line[r.value.0 + r.value.1..])
    decreases k
  {
    match LazyValue(line, k, 1)
    case Some(len) => Some((k, len))
    case None =>
      if k == 0 then None
      else
        assert forall i :: 0 <= i < k - 1 ==> line[..k - 1][i] == line[..k][i];
        BacktrackSpace(line, k - 1)
  }

  /** What the backtracking finds: a match with at most `k` spaces taken and, for them, the shortest value. */
  lemma {:induction false} BacktrackSpaceFound(line: string, k: nat)
    requires k <= |line| && AllSpace(line[..k])
    ensures var r := BacktrackSpace(line, k);
      r.Some? ==>
        && r.value.0 <= k && ProviderMatchAt(line, r.value.0, r.value.1)
        && forall n: nat :: 1 <= n < r.value.1 ==> !ProviderMatchAt(line, r.value.0, n)
    decreases k
  {
    if LazyValue(line, k, 1).None? && k > 0 {
      assert forall i :: 0 <= i < k - 1 ==> line[..k - 1][i] == line[..k][i];
      BacktrackSpaceFound(line, k - 1);
    }
  }

  /** Nothing matches with more spaces taken than the backtracking settled on, up to `k`. */
  lemma {:induction false} BacktrackSpaceSkips(line: string, k: nat)
    requires k <= |line| && AllSpace(line[..k])
    ensures var r := BacktrackSpace(line, k);
      forall j: nat, n: nat :: (r.None? || r.value.0 < j) && j <= k ==> !ProviderMatchAt(line, j, n)
    decreases k
  {
    if LazyValue(line, k, 1).None? {
      assert forall n: nat :: !ProviderMatchAt(line, k, n);
      if k > 0 {
        assert forall i :: 0 <= i < k - 1 ==> line[..k - 1][i] == line[..k][i];
        BacktrackSpaceSkips(line, k - 1);
      }
    }
  }

  /**
    Where Python's `re.search` matches the provider pattern in `line`, as the length taken
    by `\s*` and the length of the value.
  */
  function FindProviderMatch(line: string): Option<(nat, nat)> {
    TrimLeftSpec(line);
    BacktrackSpace(line, |line| - |TrimLeft(line)|)
  }

  /** Everything the backtracking rules out: no match with more leading spaces than the one found. */
  lemma {:induction false} NoMatchBeyond(line: string)
    ensures forall j: nat, n: nat ::
      (FindProviderMatch(line).None? || FindProviderMatch(line).value.0 < j) ==> !ProviderMatchAt(line, j, n)
  {
    var indent := |line| - |TrimLeft(line)|;
    TrimLeftSpec(line);
    var r := BacktrackSpace(line, indent);
    BacktrackSpaceSkips(line, indent);
    forall j: nat, n: nat | r.None? || r.value.0 < j
      ensures !ProviderMatchAt(line, j, n)
    {
      if indent < j {
        NoMatchBeyondIndent(line, j, n);
      }
    }
  }

  /** `\s*` cannot take more than the leading space of the line. */
  lemma {:induction false} NoMatchBeyondIndent(line: string, j: nat, n: nat)
    requires |line| - |TrimLeft(line)| < j
    ensures !ProviderMatchAt(line, j, n)
  {
    TrimLeftSpec(line);
    if j <= |line| {
      var indent := |line| - |TrimLeft(line)|;
      assert line[..j][indent] == TrimLeft(line)[0];
    }
  }

  /** The provider pattern fails exactly when it matches nowhere. */
  lemma {:induction false} ProviderMatchNowhere(line: string)
    ensures FindProviderMatch(line).None? <==> forall j: nat, n: nat :: !ProviderMatchAt(line, j, n)
  {
    TrimLeftSpec(line);
    BacktrackSpaceFound(line, |line| - |TrimLeft(line)|);
    NoMatchBeyond(line);
  }

  /**
    The match found is the one Python's backtracking engine reaches first: the longest
    leading `\s*` with which the pattern matches at all and, for it, the shortest value;
    there is none exactly when the pattern matches nowhere.
  */
  lemma {:induction false} ProviderMatchIsLeftmostFirst(line: string)
    ensures FindProviderMatch(line).Some? ==>
      var (k, len) := FindProviderMatch(line).value;
      && ProviderMatchAt(line, k, len)
      && (forall n: nat :: 1 <= n < len ==> !ProviderMatchAt(line, k, n))
      && (forall j: nat, n: nat :: k < j ==> !ProviderMatchAt(line, j, n))
    ensures FindProviderMatch(line).None? <==> forall j: nat, n: nat :: !ProviderMatchAt(line, j, n)
  {
    TrimLeftSpec(line);
    BacktrackSpaceFound(line, |line| - |TrimLeft(line)|);
    NoMatchBeyond(line);
  }

  /**
    `parse_provider_line`: the value and the provider when the provider pattern matches,
    otherwise the stripped line and no provider.
  */
  function SplitProvider(line: string): (string, Option<string>) {
    match FindProviderMatch(line)
    case None => (Strip(line), None)
    case Some((k, len)) =>
      (line[k..k + len], Some(ProviderText(line[k + len..])))
  }

  /** The `provider` group of a matching tail: from after the `(` up to the first `)`. */
  function ProviderText(tail: string): string
    requires HasProviderTail(tail)
  {
    var open := SpaceRun(tail, 0);
    tail[open + 1..IndexOf(tail, ')', open + 1)]
  }

  /**
    The provider annotation is dropped exactly when the provider pattern matches: the
    value is then the text the lazy group took, the provider a non-empty text without
    `)`; otherwise the value is the stripped line.
  */
  lemma {:induction false} SplitProviderSpec(line: string)
    ensures SplitProvider(line).1.None? <==> forall j: nat, n: nat :: !ProviderMatchAt(line, j, n)
    ensures SplitProvider(line).1.None? ==> SplitProvider(line).0 == Strip(line)
    ensures SplitProvider(line).1.Some? ==>
      && FindProviderMatch(line).Some?
      && var (k, len) := FindProviderMatch(line).value;
      && SplitProvider(line).0 == line[k..k + len]
      && |SplitProvider(line).1.value| >= 1 && ')' !in SplitProvider(line).1.value
  {
    ProviderMatchNowhere(line);
    if FindProviderMatch(line).Some? {
      var (k, len) := FindProviderMatch(line).value;
      TailProvider(line[k + len..]);
    }
  }

  /** The provider text of a matching tail is non-empty and holds no `)`. */
  lemma {:induction false} TailProvider(tail: string)
    requires HasProviderTail(tail)
    ensures |ProviderText(tail)| >= 1 && ')' !in ProviderText(tail)
  {
    IndexOfSpec(tail, ')', SpaceRun(tail, 0) + 1);
  }

  // ---------------------------------------------------------------------------
  // The entry pattern  ^(?P<vm_name>.*?)\s+(?P<status>running|not created|poweroff|aborted|saved)$
  // ---------------------------------------------------------------------------

  /**
    The first of `literals` that `rest` consists of, tried in order like the alternatives
    of the status group; `$` also matches before a final newline.
  */
  function LiteralAt(rest: string, literals: seq<string>): Option<string>
    decreases |literals|
  {
    if literals == [] then None
    else if rest == literals[0] || rest == literals[0] + "\n" then Some(literals[0])
    else LiteralAt(rest, literals[1..])
  }

  /** The status literal that `rest` consists of. */
  function StatusAt(rest: string): Option<string> {
    LiteralAt(rest, Statuses)
  }

  /** A literal is read exactly from itself, alone or followed by one newline. */
  lemma {:induction false} LiteralAtSpec(rest: string, literals: seq<string>)
    ensures LiteralAt(rest, literals).Some? ==> LiteralAt(rest, literals).value in literals
    ensures LiteralAt(rest, literals).Some? ==>
      rest == LiteralAt(rest, literals).value || rest == LiteralAt(rest, literals).value + "\n"
    ensures LiteralAt(rest, literals).None? ==> forall s :: s in literals ==> rest != s && rest != s + "\n"
    decreases |literals|
  {
    if literals != [] {
      LiteralAtSpec(rest, literals[1..]);
      assert forall s :: s in literals ==> s == literals[0] || s in literals[1..];
    }
  }

  /** A status is read exactly from a literal, alone or followed by one newline. */
  lemma {:induction false} StatusAtSpec(rest: string)
    ensures StatusAt(rest).Some? ==> StatusAt(rest).value in Statuses
    ensures StatusAt(rest).Some? ==> rest == StatusAt(rest).value || rest == StatusAt(rest).value + "\n"
    ensures StatusAt(rest).None? ==> forall s :: s in Statuses ==> rest != s && rest != s + "\n"
  {
    LiteralAtSpec(rest, Statuses);
  }

  /**
    The entry pattern matches `text` with a name of `len` characters followed by a run
    of `gap` spaces and a status literal.
  */
  ghost predicate EntryMatchAt(text: string, len: nat, gap: nat) {
    && 1 <= gap && len + gap <= |text|
    && '\n' !in text[..len] && AllSpace(text[len..len + gap])
    && StatusAt(text[len + gap..]).Some?
  }

  /** The same test for a name length, computed with `\s+` taking the whole space run. */
  predicate NameFits(text: string, len: nat) {
    && len <= |text| && '\n' !in text[..len]
    && var gap := SpaceRun(text, len);
    && 1 <= gap && StatusAt(text[len + gap..]).Some?
  }

  /** No status literal starts with a space, so `\s+` can only end where the space run does. */
  lemma {:induction false} GapIsSpaceRun(text: string, len: nat, gap: nat)
    requires EntryMatchAt(text, len, gap)
    ensures gap == SpaceRun(text, len)
  {
    StatusAtSpec(text[len + gap..]);
    assert !IsSpace(text[len + gap..][0]);
    SpaceRunIs(text, len, gap);
  }

  /** The computed test accepts a name length exactly when the whole space run makes the pattern match. */
  lemma {:induction false} NameFitsExact(text: string, len: nat)
    ensures NameFits(text, len) <==> len <= |text| && EntryMatchAt(text, len, SpaceRun(text, len))
  {
    if len <= |text| {
      SpaceRunSpec(text, len);
    }
  }

  /** Whatever space run makes the pattern match, the computed test accepts the name length. */
  lemma {:induction false} MatchFitsName(text: string, len: nat, gap: nat)
    requires EntryMatchAt(text, len, gap)
    ensures NameFits(text, len)
  {
    GapIsSpaceRun(text, len, gap);
    NameFitsExact(text, len);
  }

  /** The lazy `.*?`: the shortest name length, from `len` on, with which the rest matches. */
  function LazyName(text: string, len: nat): (r: Option<nat>)
    requires len <= |text| && '\n' !in text[..len]
    ensures r.Some? ==> len <= r.value <= |text| && NameFits(text, r.value)
    ensures forall n: nat :: len <= n && (r.None? || n < r.value) ==> !NameFits(text, n)
    decreases |text| - len
  {
    if NameFits(text, len) then Some(len)
    else if len < |text| && text[len] != '\n' then
      assert text[..len + 1] == text[..len] + [text[len]];
      LazyName(text, len + 1)
    else
      assert forall n :: len < n <= |text| ==> text[..n][len] == '\n';
      None
  }

  /**
    The name and status that the entry pattern splits `text` into: the shortest name
    such that the rest is a space run and one status literal; none when nothing matches.
  */
  function SplitEntry(text: string): Option<(string, string)> {
    match LazyName(text, 0)
    case None => None
    case Some(len) => Some((text[..len], StatusAt(text[len + SpaceRun(text, len)..]).value))
  }

  /** The status split off an entry is one of the five literals. */
  lemma {:induction false} SplitEntryStatusKnown(text: string)
    ensures SplitEntry(text).Some? ==> SplitEntry(text).value.1 in Statuses
  {
    var r := LazyName(text, 0);
    if r.Some? {
      StatusAtSpec(text[r.value + SpaceRun(text, r.value)..]);
    }
  }

  /**
    `text` is `name`, a run of spaces and the literal `status`, and no shorter name lets
    the entry pattern match.
  */
  ghost predicate ShortestSplit(text: string, name: string, status: string) {
    && |name| <= |text| && name == text[..|name|]
    && var gap := SpaceRun(text, |name|);
    && EntryMatchAt(text, |name|, gap)
    && StatusAt(text[|name| + gap..]) == Some(status)
    && (forall n: nat, g: nat :: n < |name| ==> !EntryMatchAt(text, n, g))
  }

  /**
    The split found is the one Python's engine reaches first: `text` is the name, a run
    of spaces and the status literal, with the shortest name for which that holds.
  */
  lemma {:induction false} EntrySplitIsShortestName(text: string)
    ensures SplitEntry(text).Some? ==> ShortestSplit(text, SplitEntry(text).value.0, SplitEntry(text).value.1)
  {
    var r := LazyName(text, 0);
    if r.Some? {
      var len := r.value;
      var name := text[..len];
      var gap := SpaceRun(text, len);
      assert SplitEntry(text).value == (name, StatusAt(text[len + gap..]).value);
      assert |name| == len;
      NameFitsExact(text, len);
      assert EntryMatchAt(text, len, gap);
      NoEarlierMatch(text, len);
    }
  }

  /** There is no split exactly when the entry pattern matches with no name length at all. */
  lemma {:induction false} EntrySplitFailsIffNoMatch(text: string)
    ensures SplitEntry(text).None? <==> forall n: nat, g: nat :: !EntryMatchAt(text, n, g)
  {
    var r := LazyName(text, 0);
    if r.Some? {
      NameFitsExact(text, r.value);
    } else {
      NoEarlierMatch(text, |text| + 1);
    }
  }

  /** No name shorter than where the lazy search stops (or any name, when it fails) lets the pattern match. */
  lemma {:induction false} NoEarlierMatch(text: string, len: nat)
    requires LazyName(text, 0) == Some(len) || (LazyName(text, 0).None? && len == |text| + 1)
    ensures forall n: nat, g: nat :: n < len ==> !EntryMatchAt(text, n, g)
  {
    forall n: nat, g: nat | n < len && EntryMatchAt(text, n, g)
      ensures false
    {
      MatchFitsName(text, n, g);
    }
  }

  /** A line with no `(` carries no provider annotation: its value is the stripped line. */
  lemma {:induction false} NoParenNoProvider(line: string)
    requires '(' !in line
    ensures SplitProvider(line) == (Strip(line), None)
  {
    assert forall j: nat, n: nat :: !ProviderMatchAt(line, j, n);
    SplitProviderSpec(line);
  }

  /** Where the tail pattern matches, the computed test finds the same parentheses. */
  lemma {:induction false} ProviderTailFound(r: string, open: nat, close: nat)
    requires ProviderTailAt(r, open, close)
    ensures HasProviderTail(r) && SpaceRun(r, 0) == open && IndexOf(r, ')', open + 1) == close
  {
    SpaceRunIs(r, 0, open);
    IndexOfIs(r, ')', open + 1, close);
  }

  /**
    When `line` starts with an entry that neither contains `(` nor ends in a space, the
    provider pattern cannot take a value shorter than the entry.
  */
  lemma {:induction false} NoShorterValue(line: string, entry: string, len: nat)
    requires |entry| <= |line| && line[..|entry|] == entry
    requires entry != [] && !IsSpace(entry[|entry| - 1]) && '(' !in entry
    requires len < |entry|
    ensures !ProviderMatchAt(line, 0, len)
  {
    if 1 <= len {
      var tail := line[len..];
      SpaceRunSpec(tail, 0);
      var open := SpaceRun(tail, 0);
      if len + open < |entry| {
        assert tail[open] == entry[len + open];
      }
    }
  }

  lemma {:induction false} AnnotationTail(gap: string, provider: string, trail: string)
    requires gap != [] && AllSpace(gap) && AllSpace(trail)
    requires provider != [] && ')' !in provider
    ensures ProviderTailAt(gap + "(" + provider + ")" + trail, |gap|, |gap| + 1 + |provider|)
    ensures var tail := gap + "(" + provider + ")" + trail;
      HasProviderTail(tail) && ProviderText(tail) == provider
  {
    var tail := gap + "(" + provider + ")" + trail;
    var open, close := |gap|, |gap| + 1 + |provider|;
    assert tail[..open] == gap && tail[open] == '(' && tail[close] == ')';
    assert tail[close + 1..] == trail;
    assert forall p :: open < p < close ==> tail[p] == provider[p - open - 1];
    ProviderTailFound(tail, open, close);
    assert tail[open + 1..close] == provider;
  }

  /**
    When `line` starts with an entry that neither starts nor ends with a space and holds
    no `(`, and the provider pattern matches with the entry as value, that is the match found.
  */
  lemma {:induction false} EntryIsValue(line: string, entry: string)
    requires |entry| <= |line| && line[..|entry|] == entry
    requires entry != [] && !IsSpace(entry[0]) && !IsSpace(entry[|entry| - 1]) && '(' !in entry
    requires ProviderMatchAt(line, 0, |entry|)
    ensures FindProviderMatch(line) == Some((0, |entry|))
  {
    ProviderMatchIsLeftmostFirst(line);
    assert FindProviderMatch(line).Some?;
    var (k, len) := FindProviderMatch(line).value;
    assert ProviderMatchAt(line, k, len);
    assert len <= |entry|;
    if len < |entry| {
      NoShorterValue(line, entry, len);
    }
  }

  /**
    An entry followed by spaces, `(provider)` and optional trailing space loses exactly
    the annotation: the value is the entry and the provider is the text in parentheses.
  */
  lemma {:induction false} ProviderAnnotationDropped(entry: string, gap: string, provider: string, trail: string)
    requires entry != [] && !IsSpace(entry[0]) && !IsSpace(entry[|entry| - 1])
    requires '(' !in entry && '\n' !in entry
    requires gap != [] && AllSpace(gap) && AllSpace(trail)
    requires provider != [] && ')' !in provider
    ensures SplitProvider(entry + gap + "(" + provider + ")" + trail) == (entry, Some(provider))
  {
    var tail := gap + "(" + provider + ")" + trail;
    assert entry + gap + "(" + provider + ")" + trail == entry + tail;
    AnnotationTail(gap, provider, trail);
    EntryThenTail(entry, tail);
  }

  /** The match found on an entry followed by a matching tail takes the entry as value. */
  lemma {:induction false} EntryThenTail(entry: string, tail: string)
    requires entry != [] && !IsSpace(entry[0]) && !IsSpace(entry[|entry| - 1])
    requires '(' !in entry && '\n' !in entry
    requires HasProviderTail(tail)
    ensures FindProviderMatch(entry + tail) == Some((0, |entry|))
  {
    var line := entry + tail;
    assert line[|entry|..] == tail && line[..|entry|] == entry && line[0..|entry|] == entry;
    EntryIsValue(line, entry);
  }

  /** A name without spaces, a run of spaces and a status literal split into that name and status. */
  lemma {:induction false} EntryNameAndStatus(name: string, gap: string, status: string)
    requires forall i :: 0 <= i < |name| ==> !IsSpace(name[i])
    requires gap != [] && AllSpace(gap)
    requires status in Statuses
    ensures SplitEntry(name + gap + status) == Some((name, status))
  {
    var text := name + gap + status;
    NameGapStatus(name, gap, status);
    SpacelessNameIsShortest(text, |name|, |gap|);
  }

  /** When the name holds no space, the lazy search stops right at its end. */
  lemma {:induction false} SpacelessNameIsShortest(text: string, len: nat, gap: nat)
    requires EntryMatchAt(text, len, gap)
    requires forall i :: 0 <= i < len ==> !IsSpace(text[i])
    ensures SplitEntry(text) == Some((text[..len], StatusAt(text[len + gap..]).value))
  {
    MatchFitsName(text, len, gap);
    var r := LazyName(text, 0);
    assert r.Some? && r.value <= len;
    var k := r.value;
    if k < len {
      assert false;
    }
    GapIsSpaceRun(text, len, gap);
    assert r == Some(len);
    assert SplitEntry(text) == Some((text[..len], StatusAt(text[len + SpaceRun(text, len)..]).value));
  }

  /** A name cut short inside a spaceless name is followed by no space run, so nothing matches there. */
  lemma {:induction false} NoShorterName(text: string, len: nat, n: nat, g: nat)
    requires len <= |text|
    requires forall i :: 0 <= i < len ==> !IsSpace(text[i])
    requires n < len
    ensures !EntryMatchAt(text, n, g)
  {
    if 1 <= g && n + g <= |text| {
      assert text[n..n + g][0] == text[n];
    }
  }

  /** Each status literal reads back as itself. */
  lemma {:induction false} StatusAtLiteral(status: string)
    requires status in Statuses
    ensures StatusAt(status) == Some(status)
  {
    var rest := Statuses[1..];
    assert rest == [NotCreated, PowerOff, Aborted, Saved];
    assert rest[1..] == [PowerOff, Aborted, Saved];
    assert rest[1..][1..] == [Aborted, Saved];
    assert rest[1..][1..][1..] == [Saved];
    if status != Running {
      assert (Running + "\n")[0] != PowerOff[0] && Running[0] != Aborted[0];
      assert StatusAt(status) == LiteralAt(status, rest);
      if status != NotCreated {
        assert LiteralAt(status, rest) == LiteralAt(status, rest[1..]);
        if status != PowerOff {
          assert LiteralAt(status, rest[1..]) == LiteralAt(status, rest[1..][1..]);
          if status != Aborted {
            assert LiteralAt(status, rest[1..][1..]) == LiteralAt(status, rest[1..][1..][1..]);
          }
        }
      }
    }
  }

  /** The entry pattern matches such a text with the name, the whole gap and the status. */
  lemma {:induction false} NameGapStatus(name: string, gap: string, status: string)
    requires forall i :: 0 <= i < |name| ==> !IsSpace(name[i])
    requires gap != [] && AllSpace(gap)
    requires status in Statuses
    ensures var text := name + gap + status;
      && text[..|name|] == name
      && EntryMatchAt(text, |name|, |gap|)
      && SpaceRun(text, |name|) == |gap|
      && StatusAt(text[|name| + |gap|..]) == Some(status)
  {
    var text := name + gap + status;
    assert text[..|name|] == name && text[|name|..|name| + |gap|] == gap;
    assert text[|name| + |gap|..] == status;
    StatusAtLiteral(status);
    assert forall i :: 0 <= i < |name| ==> name[i] != '\n';
    GapIsSpaceRun(text, |name|, |gap|);
  }

  /** `n` blanks, as `vagrant status` pads its columns. */
  function Blanks(n: nat): (r: string)
    ensures |r| == n && AllSpace(r) && '\n' !in r
  {
    seq(n, _ => ' ')
  }

  /** A column-padded entry: no parenthesis, no newline, and no space at either end. */
  lemma {:induction false} PaddedEntry(name: string, gap: string, status: string)
    requires name != [] && !IsSpace(name[0]) && '(' !in name && '\n' !in name
    requires AllSpace(gap) && '\n' !in gap
    requires status != [] && !IsSpace(status[|status| - 1]) && '(' !in status && '\n' !in status
    ensures var entry := name + gap + status;
      && entry != [] && !IsSpace(entry[0]) && !IsSpace(entry[|entry| - 1])
      && '(' !in entry && '\n' !in entry
  {
    var entry := name + gap + status;
    assert entry[0] == name[0] && entry[|entry| - 1] == status[|status| - 1];
    forall i | 0 <= i < |gap|
      ensures gap[i] != '('
    {
      assert IsSpace(gap[i]);
    }
    assert '(' !in gap;
  }

  /** A line that starts with a character other than a space is not blank. */
  lemma {:induction false} LeadingCharNotBlank(line: string)
    requires line != [] && !IsSpace(line[0])
    ensures !IsBlank(line)
  {
    StripEmptyIffAllSpace(line);
  }

  // The two entry lines of a `vagrant status` output for two machines, one of them
  // with its provider column.
  const WebLine := "web1" + Blanks(22) + Running + Blanks(1) + "(" + "virtualbox" + ")"
  const DbLine := "db1" + Blanks(23) + NotCreated

  lemma {:induction false} ExampleProviderColumn()
    ensures SplitProvider(WebLine) == ("web1" + Blanks(22) + Running, Some("virtualbox"))
  {
    PaddedEntry("web1", Blanks(22), Running);
    ProviderAnnotationDropped("web1" + Blanks(22) + Running, Blanks(1), "virtualbox", "");
    assert WebLine + "" == WebLine;
  }

  lemma {:induction false} ExampleEntryText()
    ensures SplitEntry("web1" + Blanks(22) + Running) == Some(("web1", Running))
  {
    EntryNameAndStatus("web1", Blanks(22), Running);
  }

  lemma {:induction false} ExampleRunningEntry()
    ensures !IsBlank(WebLine)
    ensures SplitEntry(SplitProvider(WebLine).0) == Some(("web1", Running))
  {
    LeadingCharNotBlank(WebLine);
    ExampleProviderColumn();
    ExampleEntryText();
  }

  lemma {:induction false} ExampleNotCreatedEntry()
    ensures !IsBlank(DbLine)
    ensures SplitEntry(SplitProvider(DbLine).0) == Some(("db1", NotCreated))
  {
    assert forall i :: 0 <= i < |DbLine| ==> DbLine[i] != '(';
    NoParenNoProvider(DbLine);
    StripUnpadded(DbLine);
    EntryNameAndStatus("db1", Blanks(23), NotCreated);
  }

  /** The header line and the blank line below it open the entry section. */
  lemma {:induction false} ExampleHeader()
    ensures Scan(["Current machine states:", ""]) == Scanning(ReadEntries, map[])
  {
    var header := "Current machine states:";
    StripUnpadded(header);
    assert StartsWith(Strip(header), "Current machine states:");
    ScanSnoc([], header);
    assert [] + [header] == [header];
    ScanSnoc([header], "");
    assert [header] + [""] == [header, ""];
  }

  /** The example of a two-machine `vagrant status` output, header and provider column included. */
  lemma {:induction false} TwoMachineExample()
    ensures ParseStatuses(["Current machine states:", ""] + [WebLine] + [DbLine])
      == Ok(map["web1" := Running, "db1" := NotCreated])
  {
    var opening := ["Current machine states:", ""];
    ExampleHeader();
    ExampleRunningEntry();
    EntryLineRead(opening, map[], WebLine, "web1", Running);
    ExampleNotCreatedEntry();
    EntryLineRead(opening + [WebLine], map["web1" := Running], DbLine, "db1", NotCreated);
  }

  /** No state ends in `c`, so a text ending in `c` is not an entry. */
  lemma {:induction false} NoStateEndsWith(text: string, c: char)
    requires text != [] && text[|text| - 1] == c
    requires c != 'g' && c != 'd' && c != 'f' && c != '\n'
    ensures SplitEntry(text).None?
  {
    forall n: nat, g: nat
      ensures !EntryMatchAt(text, n, g)
    {
      if EntryMatchAt(text, n, g) {
        StatusAtSpec(text[n + g..]);
      }
    }
    EntrySplitFailsIffNoMatch(text);
  }

  /** An entry with a state vagrant can report but the five literals do not cover. */
  const InaccessibleLine := "web1" + Blanks(22) + "inaccessible"

  /** The `inaccessible` entry raises the parse error, and the lines after it are never read. */
  lemma {:induction false} ExampleUnknownState(after: seq<string>)
    ensures ParseStatuses(["Current machine states:", ""] + [InaccessibleLine] + after)
      == Err(ParseError(InaccessibleLine))
  {
    var line := InaccessibleLine;
    assert line[0] == 'w' && line[|line| - 1] == 'e';
    assert forall i :: 0 <= i < |line| ==> line[i] != '(';
    LeadingCharNotBlank(line);
    NoParenNoProvider(line);
    StripUnpadded(line);
    NoStateEndsWith(line, 'e');
    ExampleHeader();
    UnreadableLineFails(["Current machine states:", ""], line, after);
  }

  // ---------------------------------------------------------------------------
  // The line scanner (vagrant.py:189, 208-226)
  // ---------------------------------------------------------------------------

  /** The `state` variable: 1 looks for the header, 2 for the blank line, 3 reads entries. */
  datatype Phase = SeekHeader | SeekBlank | ReadEntries

  /**
    The scanner between two lines: still scanning, stopped by the blank line that ends
    the entries (`break`), or failed on a line it could not read (`raise`).
  */
  datatype ScanState =
    | Scanning(phase: Phase, statuses: map<string, string>)
    | Stopped(statuses: map<string, string>)
    | Failed(line: string)

  datatype StatusError = ParseError(line: string) | UnknownMachine(name: string)

  /** One pass of the `for` loop body over `line`. */
  function Step(s: ScanState, line: string): ScanState {
    match s
    case Scanning(SeekHeader, m) => if IsHeaderLine(line) then Scanning(SeekBlank, m) else s
    case Scanning(SeekBlank, m) => if IsBlank(line) then Scanning(ReadEntries, m) else s
    case Scanning(ReadEntries, m) =>
      if IsBlank(line) then Stopped(m)
      else (
        match SplitEntry(SplitProvider(line).0)
        case Some((name, status)) => Scanning(ReadEntries, m[name := status])
        case None => Failed(line))
    case _ => s
  }

  /** The scanner after the lines of `lines`, in order, from the initial state. */
  function Scan(lines: seq<string>): ScanState {
    if lines == [] then Scanning(SeekHeader, map[])
    else Step(Scan(lines[..|lines| - 1]), lines[|lines| - 1])
  }

  /** What the loop of `status` ends with: the map it built, or the error it raised. */
  function ParseStatuses(lines: seq<string>): Result<map<string, string>, StatusError> {
    match Scan(lines)
    case Failed(line) => Err(ParseError(line))
    case Scanning(_, m) => Ok(m)
    case Stopped(m) => Ok(m)
  }

  lemma {:induction false} ScanSnoc(lines: seq<string>, line: string)
    ensures Scan(lines + [line]) == Step(Scan(lines), line)
  {
    assert (lines + [line])[..|lines|] == lines;
  }

  /** In the entry section, a line the entry pattern reads records its machine's status. */
  lemma {:induction false} EntryLineRead(lines: seq<string>, m: map<string, string>, line: string, name: string, status: string)
    requires Scan(lines) == Scanning(ReadEntries, m)
    requires !IsBlank(line) && SplitEntry(SplitProvider(line).0) == Some((name, status))
    ensures Scan(lines + [line]) == Scanning(ReadEntries, m[name := status])
  {
    ScanSnoc(lines, line);
  }

  /** After the scanner stopped or failed, further lines change nothing. */
  lemma {:induction false} LaterLinesIgnored(xs: seq<string>, ys: seq<string>)
    requires !Scan(xs).Scanning?
    ensures Scan(xs + ys) == Scan(xs)
    decreases |ys|
  {
    if ys != [] {
      var init := ys[..|ys| - 1];
      LaterLinesIgnored(xs, init);
      assert xs + ys == (xs + init) + [ys[|ys| - 1]];
      ScanSnoc(xs + init, ys[|ys| - 1]);
      assert Step(Scan(xs), ys[|ys| - 1]) == Scan(xs);
    } else {
      assert xs + ys == xs;
    }
  }

  /** Output in which no line is a header line yields the empty map. */
  lemma {:induction false} NoHeaderNoStatuses(lines: seq<string>)
    requires forall i :: 0 <= i < |lines| ==> !IsHeaderLine(lines[i])
    ensures Scan(lines) == Scanning(SeekHeader, map[])
    ensures ParseStatuses(lines) == Ok(map[])
  {
    if lines != [] {
      NoHeaderNoStatuses(lines[..|lines| - 1]);
    }
  }

  ghost predicate HeaderSeen(lines: seq<string>) {
    exists i :: 0 <= i < |lines| && IsHeaderLine(lines[i])
  }

  ghost predicate HeaderThenBlank(lines: seq<string>) {
    exists i, j :: 0 <= i < j < |lines| && IsHeaderLine(lines[i]) && IsBlank(lines[j])
  }

  /** Before the entry state the map stays empty, whatever the lines. */
  lemma {:induction false} NoEntriesBeforeEntryState(lines: seq<string>)
    ensures Scan(lines).Scanning? && Scan(lines).phase != ReadEntries ==> Scan(lines).statuses == map[]
  {
    if lines != [] {
      NoEntriesBeforeEntryState(lines[..|lines| - 1]);
    }
  }

  /** Waiting for the blank line means a header line was seen. */
  lemma {:induction false} SeekBlankAfterHeader(lines: seq<string>)
    ensures Scan(lines).Scanning? && Scan(lines).phase == SeekBlank ==> HeaderSeen(lines)
  {
    if lines != [] {
      var init, last := lines[..|lines| - 1], lines[|lines| - 1];
      SeekBlankAfterHeader(init);
      var s := Scan(init);
      if s.Scanning? && s.phase == SeekHeader && IsHeaderLine(last) {
        assert IsHeaderLine(lines[|init|]);
      } else if s.Scanning? && s.phase == SeekBlank {
        var i :| 0 <= i < |init| && IsHeaderLine(init[i]);
        assert lines[i] == init[i];
      }
    }
  }

  /**
    The entry state, and so any entry, any stop and any parse error, is reached only
    after a header line and, later, a blank line.
  */
  lemma {:induction false} EntryStateAfterHeaderAndBlank(lines: seq<string>)
    ensures !(Scan(lines).Scanning? && Scan(lines).phase != ReadEntries) ==> HeaderThenBlank(lines)
  {
    if lines != [] {
      var init, last := lines[..|lines| - 1], lines[|lines| - 1];
      var s := Scan(init);
      if s.Scanning? && s.phase == SeekBlank {
        SeekBlankAfterHeader(init);
        var i :| 0 <= i < |init| && IsHeaderLine(init[i]);
        assert lines[i] == init[i];
        if IsBlank(last) {
          assert IsBlank(lines[|init|]);
        }
      } else if !(s.Scanning? && s.phase == SeekHeader) {
        EntryStateAfterHeaderAndBlank(init);
        var i, j :| 0 <= i < j < |init| && IsHeaderLine(init[i]) && IsBlank(init[j]);
        assert lines[i] == init[i] && lines[j] == init[j];
      }
    }
  }

  /** Any result but the empty map needs a header line and, after it, a blank line. */
  lemma {:induction false} ResultNeedsHeaderAndBlank(lines: seq<string>)
    ensures ParseStatuses(lines) != Ok(map[]) ==> HeaderThenBlank(lines)
  {
    NoEntriesBeforeEntryState(lines);
    EntryStateAfterHeaderAndBlank(lines);
  }

  /** Once entries are being read, the first blank line ends parsing: later lines cannot matter. */
  lemma {:induction false} FirstBlankEndsParsing(before: seq<string>, blank: string, after: seq<string>)
    requires Scan(before).Scanning? && Scan(before).phase == ReadEntries
    requires IsBlank(blank)
    ensures ParseStatuses(before + [blank] + after) == Ok(Scan(before).statuses)
  {
    ScanSnoc(before, blank);
    LaterLinesIgnored(before + [blank], after);
  }

  /**
    Once entries are being read, a non-blank line the entry pattern cannot read raises the
    parse error carrying that line, whatever follows it: no map comes back.
  */
  lemma {:induction false} UnreadableLineFails(before: seq<string>, bad: string, after: seq<string>)
    requires Scan(before).Scanning? && Scan(before).phase == ReadEntries
    requires !IsBlank(bad) && SplitEntry(SplitProvider(bad).0).None?
    ensures ParseStatuses(before + [bad] + after) == Err(ParseError(bad))
  {
    ScanSnoc(before, bad);
    LaterLinesIgnored(before + [bad], after);
  }

  /** Every status the scanner records is one of the five literals. */
  lemma {:induction false} StatusesAreKnown(lines: seq<string>)
    ensures !Scan(lines).Failed? ==> AllKnown(Scan(lines).statuses)
    ensures ParseStatuses(lines).Ok? ==> AllKnown(ParseStatuses(lines).value)
  {
    if lines != [] {
      StatusesAreKnown(lines[..|lines| - 1]);
      SplitEntryStatusKnown(SplitProvider(lines[|lines| - 1]).0);
    }
  }

  /**
    An entry line without a provider column: a name without whitespace or `(`, a gap of
    blanks, and a state. It is not blank and reads as that name and state.
  */
  lemma {:induction false} PlainEntryLine(name: string, gap: string, status: string)
    requires name != [] && '(' !in name && forall i :: 0 <= i < |name| ==> !IsSpace(name[i])
    requires gap != [] && AllSpace(gap) && '\n' !in gap
    requires status in Statuses
    ensures !IsBlank(name + gap + status)
    ensures SplitEntry(SplitProvider(name + gap + status).0) == Some((name, status))
  {
    var line := name + gap + status;
    assert forall i :: 0 <= i < |name| ==> name[i] != '\n';
    assert status != [] && !IsSpace(status[|status| - 1]) && '(' !in status && '\n' !in status;
    PaddedEntry(name, gap, status);
    LeadingCharNotBlank(line);
    NoParenNoProvider(line);
    StripUnpadded(line);
    EntryNameAndStatus(name, gap, status);
  }

  /**
    Two entry lines for the same machine in a row: the later status replaces the earlier
    one and nothing else in the map changes.
  */
  lemma {:induction false} LaterEntryWins(before: seq<string>, first: string, second: string, name: string, s1: string, s2: string)
    requires Scan(before).Scanning? && Scan(before).phase == ReadEntries
    requires !IsBlank(first) && SplitEntry(SplitProvider(first).0) == Some((name, s1))
    requires !IsBlank(second) && SplitEntry(SplitProvider(second).0) == Some((name, s2))
    ensures Scan(before + [first, second]) == Scanning(ReadEntries, Scan(before).statuses[name := s2])
  {
    var m, mid := Scan(before).statuses, before + [first];
    EntryLineRead(before, m, first, name, s1);
    EntryLineRead(mid, m[name := s1], second, name, s2);
    assert m[name := s1][name := s2] == m[name := s2];
    assert before + [first, second] == mid + [second];
  }

  /** A parse error carries one of the lines, and a header line and a blank line came before it. */
  lemma {:induction false} ParseErrorNamesLine(lines: seq<string>, bad: string)
    requires ParseStatuses(lines) == Err(ParseError(bad))
    ensures exists i :: 0 <= i < |lines| && lines[i] == bad && HeaderThenBlank(lines[..i])
  {
    var init, last := lines[..|lines| - 1], lines[|lines| - 1];
    assert Scan(lines) == Step(Scan(init), last);
    if Scan(init).Failed? {
      assert Scan(init) == Scan(lines);
      ParseErrorNamesLine(init, bad);
      var i :| 0 <= i < |init| && init[i] == bad && HeaderThenBlank(init[..i]);
      assert lines[..i] == init[..i];
      assert lines[i] == bad;
    } else {
      FailingStep(Scan(init), last);
      EntryStateAfterHeaderAndBlank(init);
      assert lines[..|init|] == init;
      assert lines[|init|] == bad;
    }
  }

  /** The line a parse error carries is a non-blank line the entry pattern cannot read. */
  lemma {:induction false} ParseErrorLineUnreadable(lines: seq<string>, bad: string)
    requires ParseStatuses(lines) == Err(ParseError(bad))
    ensures !IsBlank(bad) && SplitEntry(SplitProvider(bad).0).None?
  {
    var init, last := lines[..|lines| - 1], lines[|lines| - 1];
    assert Scan(lines) == Step(Scan(init), last);
    if Scan(init).Failed? {
      assert Scan(init) == Scan(lines);
      ParseErrorLineUnreadable(init, bad);
    } else {
      FailingStep(Scan(init), last);
    }
  }

  /** The one step that fails: an unreadable non-blank line met in the entry state. */
  lemma {:induction false} FailingStep(s: ScanState, line: string)
    requires !s.Failed? && Step(s, line).Failed?
    ensures s.Scanning? && s.phase == ReadEntries && Step(s, line) == Failed(line)
    ensures !IsBlank(line) && SplitEntry(SplitProvider(line).0).None?
  {
  }
}
