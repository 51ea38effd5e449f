/** The literal text transforms `patchRum` applies to the extracted files
    (src/main/modules/patcher/patch.ts), and the `Info.plist` hash rewrite. */
module PatcherText {
  import opened Wrappers
  import opened Strings

  // ---------------------------------------------------------------------------
  // rumScript.js: append the page-side script

  /** The browser script appended to `rumScript.js`. Its body (DOM scraping,
      posting to the local server, theme reloading) runs in another process and
      is not modelled; this constant stands for that fixed, non-empty text. */
  const RumScriptBlock: string := "\n<now-playing scraper and theme loader>\n"

  /** `rumScriptContent += block`: a pure append. */
  function InjectRumScript(content: string): (r: string)
    ensures IsPrefix(content, r)
    ensures |r| > |content|
    ensures r[|content|..] == RumScriptBlock
  {
    content + RumScriptBlock
  }

  /** Patching twice appends the block twice: the injection is not idempotent. */
  lemma RumScriptInjectionRepeats(content: string)
    ensures InjectRumScript(InjectRumScript(content)) == content + RumScriptBlock + RumScriptBlock
    ensures InjectRumScript(InjectRumScript(content)) != InjectRumScript(content)
  {
  }

  // ---------------------------------------------------------------------------
  // config.js: two first-occurrence flag flips

  const DevToolsOff := "enableDevTools: false"
  const DevToolsOn := "enableDevTools: true"
  const WebSecurityOn := "enableWebSecurity: true"
  const WebSecurityOff := "enableWebSecurity: false"

  /** The first read-replace-write cycle on `config.js`. */
  function EnableDevTools(content: string): (r: string)
    ensures !Contains(content, DevToolsOff) ==> r == content
    ensures Contains(content, DevToolsOff) ==>
      exists i :: FirstAt(content, DevToolsOff, i) &&
        r == content[..i] + DevToolsOn + content[i + |DevToolsOff|..]
  {
    ReplaceFirst(content, DevToolsOff, DevToolsOn)
  }

  /** The second read-replace-write cycle on `config.js`. */
  function DisableWebSecurity(content: string): (r: string)
    ensures !Contains(content, WebSecurityOn) ==> r == content
    ensures Contains(content, WebSecurityOn) ==>
      exists i :: FirstAt(content, WebSecurityOn, i) &&
        r == content[..i] + WebSecurityOff + content[i + |WebSecurityOn|..]
  {
    ReplaceFirst(content, WebSecurityOn, WebSecurityOff)
  }

  /** Both cycles in order: `config.js` as it is left on disk. Each setting
      found switched the unwanted way ends up switched the wanted way: the
      second cycle cannot undo the first, nor the first hide the setting the
      second looks for, because the four settings share only their first and
      last character. */
  function PatchConfig(content: string): (r: string)
    ensures !Contains(content, DevToolsOff) && !Contains(content, WebSecurityOn) ==> r == content
    ensures Contains(content, DevToolsOff) ==> Contains(r, DevToolsOn)
    ensures Contains(content, WebSecurityOn) ==> Contains(r, WebSecurityOff)
  {
    var d := EnableDevTools(content);
    ReplaceFirstPlaces(content, DevToolsOff, DevToolsOn);
    ReplaceFirstKeeps(content, DevToolsOff, DevToolsOn, WebSecurityOn);
    ReplaceFirstKeeps(d, WebSecurityOn, WebSecurityOff, DevToolsOn);
    ReplaceFirstPlaces(d, WebSecurityOn, WebSecurityOff);
    DisableWebSecurity(d)
  }

  // ---------------------------------------------------------------------------
  // events.js: hook a network listener into handleApplicationEvents

  const EventsAnchor := "const handleApplicationEvents = (window) => {"

  /** The line break and indentation the template literal starts with. */
  const EventsLead := "\n                "

  /** The `webRequest.onCompleted` listener registration that follows the
      anchor in the replacement; its text is not modelled. */
  const EventsListener: string := "\n<track-info listener>"

  /** The replacement: the anchor itself, then the listener. */
  const EventsPatch := EventsLead + EventsAnchor + EventsListener

  /** `eventsPathContent.replace(anchor, patchStr)`: when the anchor occurs,
      its first occurrence is kept, the listener is put right after it (at the
      start of the function body) and the text on either side is preserved;
      otherwise the file is unchanged. */
  function PatchEvents(content: string): (r: string)
    ensures !Contains(content, EventsAnchor) ==> r == content
    ensures Contains(content, EventsAnchor) ==>
      exists i :: FirstAt(content, EventsAnchor, i) &&
        r == content[..i] + EventsPatch + content[i + |EventsAnchor|..]
  {
    ReplaceFirst(content, EventsAnchor, EventsPatch)
  }

  /** The hook text holds the anchor, and the listener right after it. */
  lemma EventsPatchHoldsAnchor()
    ensures OccursAt(EventsPatch, EventsAnchor + EventsListener, |EventsLead|)
    ensures OccursAt(EventsPatch, EventsAnchor, |EventsLead|)
  {
    assert EventsPatch == EventsLead + (EventsAnchor + EventsListener);
    OccursInMiddle(EventsLead, EventsAnchor + EventsListener, []);
    assert EventsLead + (EventsAnchor + EventsListener) + [] == EventsPatch;
    OccursInMiddle([], EventsAnchor, EventsListener);
    OccursWithin(EventsPatch, EventsAnchor + EventsListener, EventsAnchor, |EventsLead|, 0, |EventsLead|);
  }

  /** After patching, the anchor is still there, immediately followed by the
      listener. */
  lemma PatchEventsKeepsAnchor(content: string)
    requires Contains(content, EventsAnchor)
    ensures exists k :: OccursAt(PatchEvents(content), EventsAnchor + EventsListener, k)
    ensures Contains(PatchEvents(content), EventsAnchor)
  {
    var r := PatchEvents(content);
    var i :| FirstAt(content, EventsAnchor, i) &&
      r == content[..i] + EventsPatch + content[i + |EventsAnchor|..];
    var before := content[..i];
    assert |before| == i;
    OccursInMiddle(before, EventsPatch, content[i + |EventsAnchor|..]);
    EventsPatchHoldsAnchor();
    OccursWithin(r, EventsPatch, EventsAnchor + EventsListener, i, |EventsLead|, i + |EventsLead|);
    OccursWithin(r, EventsPatch, EventsAnchor, i, |EventsLead|, i + |EventsLead|);
  }

  // ---------------------------------------------------------------------------
  // Info.plist: /<key>hash<\/key>\s*<string>([^<]+)<\/string>/

  /** The literal parts of the hash pattern: `key`, then `\s*`, then `open`,
      the captured `[^<]+`, then `close`. */
  datatype HashPattern = HashPattern(key: string, open: string, close: string)

  /** The pattern `patchRum` uses. */
  const PlistHash := HashPattern("<key>hash</key>", "<string>", "</string>")

  /** Both tags after the key begin with `<`, which is neither white space
      nor allowed in the capture; this is what makes the match deterministic. */
  predicate Delimited(p: HashPattern) {
    |p.open| > 0 && p.open[0] == '<' && |p.close| > 0 && p.close[0] == '<'
  }

  lemma PlistHashDelimited()
    ensures Delimited(PlistHash)
  {
  }

  /** JavaScript's `\s` (white space and line terminators). */
  predicate IsJsSpace(c: char) {
    c in {' ', '\t', '\n', '\r', '\U{000B}', '\U{000C}', '\U{00A0}', '\U{1680}', '\U{2028}',
          '\U{2029}', '\U{202F}', '\U{205F}', '\U{3000}', '\U{FEFF}'}
    || ('\U{2000}' <= c <= '\U{200A}')
  }

  predicate NotLt(c: char) {
    c != '<'
  }

  /** The end of the run of characters from `i` on that satisfy `ok`. */
  function RunEnd(s: string, i: nat, ok: char -> bool): (e: nat)
    requires i <= |s|
    ensures i <= e <= |s|
    ensures e < |s| ==> !ok(s[e])
    decreases |s| - i
  {
    if i < |s| && ok(s[i]) then RunEnd(s, i + 1, ok) else i
  }

  /** Every character of the run satisfies `ok`. */
  lemma {:induction false} RunEndAll(s: string, i: nat, ok: char -> bool)
    requires i <= |s|
    ensures forall k :: i <= k < RunEnd(s, i, ok) ==> ok(s[k])
    decreases |s| - i
  {
    if i < |s| && ok(s[i]) {
      RunEndAll(s, i + 1, ok);
    }
  }

  lemma RunEndAt(s: string, i: nat, ok: char -> bool, e: nat)
    requires i <= e <= |s|
    requires forall k :: i <= k < e ==> ok(s[k])
    requires e < |s| ==> !ok(s[e])
    ensures RunEnd(s, i, ok) == e
    decreases |s| - i
  {
    if i < e {
      RunEndAt(s, i + 1, ok, e);
    }
  }

  /** A match of the hash pattern: it spans `[start, end)` and captures `value`. */
  datatype HashMatch = HashMatch(start: nat, end: nat, value: string)

  /** The pattern matched at position `i`. For a delimited pattern the match
      is deterministic: `\s*` can only stop before the `<` of the opening tag
      and `[^<]+` only before the `<` of the closing tag, so both runs are
      maximal. */
  function MatchAt(p: HashPattern, s: string, i: nat): (m: Option<HashMatch>)
    ensures m.Some? ==> m.value.start == i && i < m.value.end <= |s|
    ensures m.Some? ==> |m.value.value| > 0 && '<' !in m.value.value
  {
    if !OccursAt(s, p.key, i) then None
    else MatchOpen(p, s, i, RunEnd(s, i + |p.key|, IsJsSpace))
  }

  /** The rest of a match once `\s*` has ended at `j`: the opening tag. */
  function MatchOpen(p: HashPattern, s: string, i: nat, j: nat): (m: Option<HashMatch>)
    requires i <= j <= |s|
    ensures m.Some? ==> m.value.start == i && j < m.value.end <= |s|
    ensures m.Some? ==> |m.value.value| > 0 && '<' !in m.value.value
  {
    if !OccursAt(s, p.open, j) then None
    else MatchCapture(p, s, i, j + |p.open|)
  }

  /** The rest of a match from the capture's start `v`: `[^<]+` and the
      closing tag. */
  function MatchCapture(p: HashPattern, s: string, i: nat, v: nat): (m: Option<HashMatch>)
    requires i <= v <= |s|
    ensures m.Some? ==> m.value.start == i && v < m.value.end <= |s|
    ensures m.Some? ==> |m.value.value| > 0 && '<' !in m.value.value
  {
    var k := RunEnd(s, v, NotLt);
    if k == v || !OccursAt(s, p.close, k) then None
    else
      RunEndAll(s, v, NotLt);
      assert forall q :: 0 <= q < k - v ==> s[v..k][q] == s[v + q];
      Some(HashMatch(i, k + |p.close|, s[v..k]))
  }

  /** `data.match(hashRegex)`: the leftmost match at or after `from`. */
  function FindHash(p: HashPattern, s: string, from: nat): (m: Option<HashMatch>)
    ensures m.Some? ==> from <= m.value.start && MatchAt(p, s, m.value.start) == m
    ensures m.Some? ==> forall j :: from <= j < m.value.start ==> MatchAt(p, s, j).None?
    ensures m.None? ==> forall j :: from <= j ==> MatchAt(p, s, j).None?
    decreases |s| - from
  {
    if from >= |s| then None
    else
      var m := MatchAt(p, s, from);
      if m.Some? then m else FindHash(p, s, from + 1)
  }

  /** The text the first match is replaced with. */
  function HashRecord(p: HashPattern, hash: string): string {
    p.key + "\n" + p.open + hash + p.close
  }

  /** What the macOS step writes and stores: the new plist text and the old
      hash (the capture group), or `None` when the pattern does not match. */
  datatype PlistUpdate = PlistUpdate(text: string, oldHash: Option<string>)

  /** `data.replace(hashRegex, record)` after `data.match(hashRegex)`. */
  function RewritePlist(p: HashPattern, s: string, hash: string): (u: PlistUpdate)
    ensures FindHash(p, s, 0).None? ==> u == PlistUpdate(s, None)
    ensures FindHash(p, s, 0).Some? ==>
      var m := FindHash(p, s, 0).value;
      && u.oldHash == Some(m.value)
      && u.text == s[..m.start] + HashRecord(p, hash) + s[m.end..]
      && OccursAt(u.text, HashRecord(p, hash), m.start)
  {
    match FindHash(p, s, 0)
    case None => PlistUpdate(s, None)
    case Some(m) =>
      OccursInMiddle(s[..m.start], HashRecord(p, hash), s[m.end..]);
      PlistUpdate(s[..m.start] + HashRecord(p, hash) + s[m.end..], Some(m.value))
  }

  /** Where the parts of a hash record lie inside it. */
  lemma HashRecordLayout(p: HashPattern, hash: string)
    ensures var rec := HashRecord(p, hash);
      && |rec| == |p.key| + 1 + |p.open| + |hash| + |p.close|
      && OccursAt(rec, p.key, 0)
      && OccursAt(rec, "\n", |p.key|)
      && OccursAt(rec, p.open, |p.key| + 1)
      && OccursAt(rec, hash, |p.key| + 1 + |p.open|)
      && OccursAt(rec, p.close, |p.key| + 1 + |p.open| + |hash|)
  {
    var kn := p.key + "\n";
    var kno := kn + p.open;
    var knoh := kno + hash;
    OccursInConcat(p.key, "\n");
    OccursInConcat(kn, p.open);
    OccursInConcat(kno, hash);
    OccursInConcat(knoh, p.close);
    OccursWithin(knoh + p.close, knoh, kno, 0, 0, 0);
    OccursWithin(knoh + p.close, kno, kn, 0, 0, 0);
    OccursWithin(knoh + p.close, kn, p.key, 0, 0, 0);
    OccursWithin(knoh + p.close, kn, "\n", 0, |p.key|, |p.key|);
    OccursWithin(knoh + p.close, kno, p.open, 0, |kn|, |kn|);
    OccursWithin(knoh + p.close, knoh, hash, 0, |kno|, |kno|);
  }

  /** What a hash record found at `i` puts where the pattern looks: the key
      at `i`, a line break at `j`, the opening tag after it, the hash at `v`
      and the closing tag at `k`. */
  lemma RecordParts(p: HashPattern, t: string, i: nat, hash: string, j: nat, v: nat, k: nat)
    requires Delimited(p)
    requires OccursAt(t, HashRecord(p, hash), i)
    requires j == i + |p.key| && v == j + 1 + |p.open| && k == v + |hash|
    ensures OccursAt(t, p.key, i)
    ensures t[j] == '\n' && t[j + 1] == '<'
    ensures OccursAt(t, p.open, j + 1)
    ensures OccursAt(t, hash, v)
    ensures OccursAt(t, p.close, k) && t[k] == '<'
    ensures i + |HashRecord(p, hash)| == k + |p.close|
  {
    var rec := HashRecord(p, hash);
    HashRecordLayout(p, hash);
    OccursWithin(t, rec, p.key, i, 0, i);
    OccursWithin(t, rec, "\n", i, |p.key|, j);
    OccursWithin(t, rec, p.open, i, |p.key| + 1, j + 1);
    OccursWithin(t, rec, hash, i, |p.key| + 1 + |p.open|, v);
    OccursWithin(t, rec, p.close, i, |p.key| + 1 + |p.open| + |hash|, k);
    assert t[j] == t[j..j + 1][0];
    assert t[j + 1] == t[j + 1..j + 1 + |p.open|][0];
    assert t[k] == t[k..k + |p.close|][0];
  }

  /** `\s*` after the key stops at the line break's successor `<`. */
  lemma SpaceRun(t: string, j: nat)
    requires j + 1 < |t| && t[j] == '\n' && t[j + 1] == '<'
    ensures RunEnd(t, j, IsJsSpace) == j + 1
  {
    RunEndAt(t, j, IsJsSpace, j + 1);
  }

  /** `[^<]+` over a hash without `<` stops at the `<` that follows it. */
  lemma CaptureRun(t: string, v: nat, hash: string)
    requires '<' !in hash && OccursAt(t, hash, v)
    requires v + |hash| < |t| && t[v + |hash|] == '<'
    ensures RunEnd(t, v, NotLt) == v + |hash|
  {
    forall q | v <= q < v + |hash|
      ensures NotLt(t[q])
    {
      assert t[q] == t[v..v + |hash|][q - v] == hash[q - v];
    }
    RunEndAt(t, v, NotLt, v + |hash|);
  }

  /** A capture followed by the closing tag completes the match. */
  lemma CaptureRecord(p: HashPattern, t: string, i: nat, v: nat, k: nat, hash: string)
    requires i <= v && k == v + |hash|
    requires |hash| > 0 && '<' !in hash
    requires OccursAt(t, hash, v) && OccursAt(t, p.close, k)
    requires |p.close| > 0 && t[k] == '<'
    ensures MatchCapture(p, t, i, v) == Some(HashMatch(i, k + |p.close|, hash))
  {
    CaptureRun(t, v, hash);
  }

  /** A hash record found at `i` matches a delimited pattern there and
      captures the hash (for a hash that is non-empty and has no `<`). */
  lemma RecordMatchesAt(p: HashPattern, t: string, i: nat, hash: string)
    requires Delimited(p)
    requires |hash| > 0 && '<' !in hash
    requires OccursAt(t, HashRecord(p, hash), i)
    ensures MatchAt(p, t, i) == Some(HashMatch(i, i + |HashRecord(p, hash)|, hash))
  {
    var j := i + |p.key|;
    var v := j + 1 + |p.open|;
    var k := v + |hash|;
    RecordFrom(p, t, i, hash, j, v, k, Some(HashMatch(i, k + |p.close|, hash)));
  }

  /** The same, with the positions of the parts given. */
  lemma RecordFrom(p: HashPattern, t: string, i: nat, hash: string, j: nat, v: nat, k: nat,
                   m: Option<HashMatch>)
    requires Delimited(p)
    requires |hash| > 0 && '<' !in hash
    requires OccursAt(t, HashRecord(p, hash), i)
    requires j == i + |p.key| && v == j + 1 + |p.open| && k == v + |hash|
    requires m == Some(HashMatch(i, k + |p.close|, hash))
    ensures MatchAt(p, t, i) == m
    ensures i + |HashRecord(p, hash)| == k + |p.close|
  {
    RecordOpen(p, t, i, hash, j, v, k, m);
    RecordHead(p, t, i, hash, j, v, k);
    KeyThenOpen(p, t, i, j + 1, m);
  }

  /** From the opening tag on, a found record matches. */
  lemma RecordOpen(p: HashPattern, t: string, i: nat, hash: string, j: nat, v: nat, k: nat,
                   m: Option<HashMatch>)
    requires Delimited(p)
    requires |hash| > 0 && '<' !in hash
    requires OccursAt(t, HashRecord(p, hash), i)
    requires j == i + |p.key| && v == j + 1 + |p.open| && k == v + |hash|
    requires m == Some(HashMatch(i, k + |p.close|, hash))
    ensures MatchOpen(p, t, i, j + 1) == m
    ensures i + |HashRecord(p, hash)| == k + |p.close|
  {
    RecordParts(p, t, i, hash, j, v, k);
    OpenCaptureClose(p, t, i, j + 1, v, k, hash, m);
  }

  /** The opening tag, a capture without `<` and the closing tag match. */
  lemma OpenCaptureClose(p: HashPattern, t: string, i: nat, o: nat, v: nat, k: nat, hash: string,
                         m: Option<HashMatch>)
    requires i <= o && OccursAt(t, p.open, o) && v == o + |p.open| && k == v + |hash|
    requires |hash| > 0 && '<' !in hash
    requires OccursAt(t, hash, v) && OccursAt(t, p.close, k)
    requires |p.close| > 0 && t[k] == '<'
    requires m == Some(HashMatch(i, k + |p.close|, hash))
    ensures MatchOpen(p, t, i, o) == m
  {
    CaptureRecord(p, t, i, v, k, hash);
    OpenThenCapture(p, t, i, o, v, m);
  }

  /** The key, white space and opening tag of a found record. */
  lemma RecordHead(p: HashPattern, t: string, i: nat, hash: string, j: nat, v: nat, k: nat)
    requires Delimited(p)
    requires OccursAt(t, HashRecord(p, hash), i)
    requires j == i + |p.key| && v == j + 1 + |p.open| && k == v + |hash|
    ensures OccursAt(t, p.key, i) && OccursAt(t, p.open, j + 1)
    ensures RunEnd(t, j, IsJsSpace) == j + 1
  {
    RecordParts(p, t, i, hash, j, v, k);
    SpaceRun(t, j);
  }

  /** The opening tag hands over to the capture. */
  lemma OpenThenCapture(p: HashPattern, t: string, i: nat, j: nat, v: nat, m: Option<HashMatch>)
    requires i <= j && OccursAt(t, p.open, j) && v == j + |p.open|
    requires MatchCapture(p, t, i, v) == m
    ensures MatchOpen(p, t, i, j) == m
  {
  }

  /** The key and the white-space run hand over to the opening tag. */
  lemma KeyThenOpen(p: HashPattern, t: string, i: nat, j: nat, m: Option<HashMatch>)
    requires OccursAt(t, p.key, i) && i + |p.key| <= j <= |t|
    requires RunEnd(t, i + |p.key|, IsJsSpace) == j
    requires MatchOpen(p, t, i, j) == m
    ensures MatchAt(p, t, i) == m
  {
  }

  /** The record written in place of the old one matches the pattern at the
      same position and captures the new hash: the plist the next run reads
      carries the hash just computed. */
  lemma RewrittenRecordMatches(p: HashPattern, s: string, hash: string, m: HashMatch)
    requires Delimited(p)
    requires FindHash(p, s, 0) == Some(m)
    requires |hash| > 0 && '<' !in hash
    ensures MatchAt(p, RewritePlist(p, s, hash).text, m.start)
         == Some(HashMatch(m.start, m.start + |HashRecord(p, hash)|, hash))
  {
    RecordMatchesAt(p, RewritePlist(p, s, hash).text, m.start, hash);
  }
}
