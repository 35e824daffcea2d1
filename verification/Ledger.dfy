/** The governance ledger: entries cut from a text, and the hash chain through them. */
module Ledger {
  import opened Lru
  import opened Strings
  import Regex

  // ---------- Finding things in a text ----------

  predicate IsHex(c: char) { '0' <= c <= '9' || 'a' <= c <= 'f' }

  /** 64 hexadecimal digits stand at `p`. */
  predicate HexAt(text: string, p: nat) {
    p + 64 <= |text| && forall i :: p <= i < p + 64 ==> IsHex(text[i])
  }

  /** The first place from `p` on where `s` stands, or the length. */
  function Find(text: string, s: string, p: nat): (q: nat)
    requires p <= |text|
    ensures p <= q <= |text|
    decreases |text| - p
  {
    if p == |text| || StandsAt(text, p, s) then p else Find(text, s, p + 1)
  }

  function FindHex(text: string, p: nat): (q: nat)
    requires p <= |text|
    ensures p <= q <= |text|
    decreases |text| - p
  {
    if p == |text| || HexAt(text, p) then p else FindHex(text, p + 1)
  }

  function SkipSpaces(text: string, p: nat): (q: nat)
    requires p <= |text|
    ensures p <= q <= |text|
    decreases |text| - p
  {
    if p < |text| && Regex.IsSpace(text[p]) then SkipSpaces(text, p + 1) else p
  }

  function SkipDigits(text: string, p: nat): (q: nat)
    requires p <= |text|
    ensures p <= q <= |text|
    decreases |text| - p
  {
    if p < |text| && Regex.IsDigit(text[p]) then SkipDigits(text, p + 1) else p
  }

  function LineEnd(text: string, p: nat): (q: nat)
    requires p <= |text|
    ensures p <= q <= |text|
    decreases |text| - p
  {
    if p < |text| && text[p] != '\n' then LineEnd(text, p + 1) else p
  }

  // ---------- One entry ----------

  /** `_hash_after`: the first digest after the label. */
  function HashAfter(body: string, name: string): (h: Option<string>)
    ensures h.Some? ==> |h.value| == 64
  {
    var i := Find(body, name, 0);
    if i == |body| then None
    else
      var p := FindHex(body, i);
      if HexAt(body, p) then Some(body[p..p + 64]) else None
  }

  const PreviousLabel := "**Previous Hash**:"

  /** The rest of the line after the label and white space, from the first place where there is one. */
  function PreviousFrom(body: string, p: nat): Option<string>
    requires p <= |body|
    decreases |body| - p
  {
    var q := Find(body, PreviousLabel, p);
    if q + |PreviousLabel| > |body| then None
    else
      var after := q + |PreviousLabel|;
      var r := SkipSpaces(body, after);
      if r < |body| then Some(StripRight(body[r..LineEnd(body, r)]))
      else if exists i :: after <= i < r && body[i] != '\n' then Some("")
      else PreviousFrom(body, q + 1)
  }

  /** `_previous`: a digest where the value starts with one, else the value. */
  function Previous(body: string): Option<string> {
    match PreviousFrom(body, 0)
    case None => None
    case Some(value) => Some(if HexAt(value, 0) then value[..64] else value)
  }

  datatype Entry = Entry(num: string, content: Option<string>, previous: Option<string>, chain: Option<string>)

  function ParseEntry(num: string, body: string): Entry {
    Entry(num, HashAfter(body, "Content Hash"), Previous(body), HashAfter(body, "Chain Hash"))
  }

  // ---------- Entries of a text ----------

  const HeaderStart := "### Entry #"

  /** A line starts here, with `### Entry #` and a digit. */
  predicate HeaderAt(text: string, p: nat) {
    (p == 0 || (p <= |text| && text[p - 1] == '\n')) && StandsAt(text, p, HeaderStart) &&
    p + |HeaderStart| < |text| && Regex.IsDigit(text[p + |HeaderStart|])
  }

  function NextHeader(text: string, p: nat): (q: nat)
    requires p <= |text|
    ensures p <= q <= |text|
    ensures q < |text| ==> HeaderAt(text, q)
    decreases |text| - p
  {
    if p == |text| || HeaderAt(text, p) then p else NextHeader(text, p + 1)
  }

  /** `_entries` from the header at `p` on: number and body of each. */
  function EntriesFrom(text: string, p: nat): seq<(string, string)>
    requires p <= |text| && (p < |text| ==> HeaderAt(text, p))
    decreases |text| - p
  {
    if p == |text| then []
    else
      var digits := p + |HeaderStart|;
      var body := SkipDigits(text, digits);
      var next := NextHeader(text, body);
      [(text[digits..body], text[body..next])] + EntriesFrom(text, next)
  }

  function Entries(text: string): seq<(string, string)> { EntriesFrom(text, NextHeader(text, 0)) }

  function Printed(entries: seq<(string, string)>): string {
    if entries == [] then "" else HeaderStart + entries[0].0 + entries[0].1 + Printed(entries[1..])
  }

  lemma FourParts(text: string, p: nat, a: nat, b: nat, c: nat)
    requires p <= a <= b <= c <= |text|
    ensures text[p..a] + text[a..b] + text[b..c] + text[c..] == text[p..]
  {
  }

  /** Cutting loses nothing: the entries spell the text from the first header on. */
  lemma {:induction false} EntriesSpellText(text: string, p: nat)
    requires p <= |text| && (p < |text| ==> HeaderAt(text, p))
    ensures Printed(EntriesFrom(text, p)) == text[p..]
    decreases |text| - p
  {
    if p < |text| {
      var digits := p + |HeaderStart|;
      var body := SkipDigits(text, digits);
      var next := NextHeader(text, body);
      EntriesSpellText(text, next);
      var rest := EntriesFrom(text, next);
      assert EntriesFrom(text, p) == [(text[digits..body], text[body..next])] + rest;
      assert ([(text[digits..body], text[body..next])] + rest)[1..] == rest;
      FourParts(text, p, digits, body, next);
    }
  }

  function Parsed(entries: seq<(string, string)>): seq<Entry> {
    seq(|entries|, i requires 0 <= i < |entries| => ParseEntry(entries[i].0, entries[i].1))
  }

  // ---------- The chain ----------

  type Hash = string -> string

  datatype LedgerError =
    | NoEntries
    | MultipleGenesis(num: string)
    | GenesisWithoutContent(num: string)
    | GenesisWithChain(num: string)
    | MissingHash(num: string)
    | NotLinked(num: string)
    | ChainMismatch(num: string)

  predicate IsGenesis(e: Entry) {
    e.previous.Some? && Contains(e.previous.value, "GENESIS")
  }

  predicate Complete(e: Entry) {
    e.content.Some? && e.previous.Some? && e.chain.Some?
  }

  function When<T>(b: bool, x: T): seq<T> { if b then [x] else [] }

  /** The errors of one entry, after `count` genesis entries and with `link` to link to. */
  function EntryErrors(hash: Hash, e: Entry, link: Option<string>, count: nat): seq<LedgerError> {
    if IsGenesis(e) then
      When(count > 0, MultipleGenesis(e.num)) + When(e.content.None?, GenesisWithoutContent(e.num)) +
      When(e.chain.Some?, GenesisWithChain(e.num))
    else if !Complete(e) then [MissingHash(e.num)]
    else
      When(link.Some? && e.previous != link, NotLinked(e.num)) +
      When(hash(e.content.value + e.previous.value) != e.chain.value, ChainMismatch(e.num))
  }

  /** What the next entry has to link to. */
  function NextLink(e: Entry, link: Option<string>): Option<string> {
    if IsGenesis(e) then e.content else if Complete(e) then e.chain else link
  }

  function ErrorsFrom(hash: Hash, es: seq<Entry>, link: Option<string>, count: nat): seq<LedgerError> {
    if es == [] then []
    else
      EntryErrors(hash, es[0], link, count) +
      ErrorsFrom(hash, es[1..], NextLink(es[0], link), count + if IsGenesis(es[0]) then 1 else 0)
  }

  function LedgerErrors(hash: Hash, text: string): seq<LedgerError> {
    var es := Parsed(Entries(text));
    if es == [] then [NoEntries] else ErrorsFrom(hash, es, None, 0)
  }

  method VerifyLedgerChain(hash: Hash, text: string) returns (errors: seq<LedgerError>)
    ensures errors == LedgerErrors(hash, text)
  {
    var entries := Parsed(Entries(text));
    if entries == [] {
      return [NoEntries];
    }
    errors := VerifyEntries(hash, entries);
  }

  /** The loop over the entries. */
  method VerifyEntries(hash: Hash, entries: seq<Entry>) returns (errors: seq<LedgerError>)
    ensures errors == ErrorsFrom(hash, entries, None, 0)
  {
    errors := [];
    var prevLink: Option<string> := None;
    var genesisCount: nat := 0;
    assert entries[0..] == entries;
    for i := 0 to |entries|
      invariant errors + ErrorsFrom(hash, entries[i..], prevLink, genesisCount) == ErrorsFrom(hash, entries, None, 0)
    {
      assert entries[i..][1..] == entries[i + 1..];
      var e := entries[i];
      var found := CheckEntry(hash, e, prevLink, genesisCount);
      ErrorsStep(hash, entries[i..], prevLink, genesisCount, errors);
      errors := errors + found;
      if IsGenesis(e) {
        genesisCount, prevLink := genesisCount + 1, e.content;
      } else if Complete(e) {
        prevLink := e.chain;
      }
    }
  }

  /** One round, as the loop sees it. */
  lemma ErrorsStep(hash: Hash, es: seq<Entry>, link: Option<string>, count: nat, before: seq<LedgerError>)
    requires es != []
    ensures before + ErrorsFrom(hash, es, link, count) ==
            before + EntryErrors(hash, es[0], link, count) +
            ErrorsFrom(hash, es[1..], NextLink(es[0], link), count + if IsGenesis(es[0]) then 1 else 0)
  {
    var rest := ErrorsFrom(hash, es[1..], NextLink(es[0], link), count + if IsGenesis(es[0]) then 1 else 0);
    var first := EntryErrors(hash, es[0], link, count);
    assert before + (first + rest) == before + first + rest;
  }

  /** The errors appended for one entry. */
  method CheckEntry(hash: Hash, e: Entry, prevLink: Option<string>, genesisCount: nat)
    returns (errors: seq<LedgerError>)
    ensures errors == EntryErrors(hash, e, prevLink, genesisCount)
  {
    errors := [];
    if IsGenesis(e) {
      if genesisCount + 1 > 1 {
        errors := errors + [MultipleGenesis(e.num)];
      }
      if e.content.None? {
        errors := errors + [GenesisWithoutContent(e.num)];
      }
      if e.chain.Some? {
        errors := errors + [GenesisWithChain(e.num)];
      }
    } else if !Complete(e) {
      errors := errors + [MissingHash(e.num)];
    } else {
      if prevLink.Some? && e.previous != prevLink {
        errors := errors + [NotLinked(e.num)];
      }
      if hash(e.content.value + e.previous.value) != e.chain.value {
        errors := errors + [ChainMismatch(e.num)];
      }
    }
  }

  // ---------- What "no errors" means ----------

  function Link(e: Entry): Option<string> { if IsGenesis(e) then e.content else e.chain }

  ghost predicate ChainedAt(hash: Hash, es: seq<Entry>, i: nat)
    requires i < |es|
  {
    Complete(es[i]) && es[i].chain.value == hash(es[i].content.value + es[i].previous.value) &&
    (i > 0 ==> es[i].previous == Link(es[i - 1]))
  }

  /** At most one genesis entry, with a content hash only; every other entry is complete, hashed right
      and linked to the one before. */
  ghost predicate Verifies(hash: Hash, es: seq<Entry>) {
    (forall i, j :: 0 <= i < j < |es| ==> !(IsGenesis(es[i]) && IsGenesis(es[j]))) &&
    forall i :: 0 <= i < |es| ==>
      if IsGenesis(es[i]) then es[i].content.Some? && es[i].chain.None? else ChainedAt(hash, es, i)
  }

  /** The same, for the entries after `link` and `count` genesis entries. */
  ghost predicate VerifiesAfter(hash: Hash, es: seq<Entry>, link: Option<string>, count: nat) {
    Verifies(hash, es) &&
    (count > 0 ==> forall i :: 0 <= i < |es| ==> !IsGenesis(es[i])) &&
    (es != [] && !IsGenesis(es[0]) && link.Some? ==> es[0].previous == link)
  }

  lemma VerifiesCons(hash: Hash, es: seq<Entry>, link: Option<string>, count: nat)
    requires es != []
    ensures VerifiesAfter(hash, es, link, count) <==>
            EntryErrors(hash, es[0], link, count) == [] &&
            VerifiesAfter(hash, es[1..], NextLink(es[0], link), count + if IsGenesis(es[0]) then 1 else 0)
  {
    var tail := es[1..];
    if VerifiesAfter(hash, es, link, count) {
      forall i | 0 <= i < |tail| && !IsGenesis(tail[i]) ensures ChainedAt(hash, tail, i) {
        assert ChainedAt(hash, es, i + 1);
      }
    }
    if EntryErrors(hash, es[0], link, count) == [] &&
       VerifiesAfter(hash, tail, NextLink(es[0], link), count + if IsGenesis(es[0]) then 1 else 0) {
      forall i | 0 <= i < |es| && !IsGenesis(es[i]) ensures ChainedAt(hash, es, i) {
        if i > 0 { assert ChainedAt(hash, tail, i - 1); }
      }
    }
  }

  lemma {:induction false} NoErrorsExactly(hash: Hash, es: seq<Entry>, link: Option<string>, count: nat)
    ensures ErrorsFrom(hash, es, link, count) == [] <==> VerifiesAfter(hash, es, link, count)
  {
    if es != [] {
      VerifiesCons(hash, es, link, count);
      NoErrorsExactly(hash, es[1..], NextLink(es[0], link), count + if IsGenesis(es[0]) then 1 else 0);
    }
  }

  /** No errors are reported exactly when there are entries and they verify. */
  lemma LedgerVerifiesExactly(hash: Hash, text: string)
    ensures LedgerErrors(hash, text) == [] <==> Entries(text) != [] && Verifies(hash, Parsed(Entries(text)))
  {
    NoErrorsExactly(hash, Parsed(Entries(text)), None, 0);
  }

  // ---------- The last hash determines the ledger ----------

  /** Content hashes are 64 characters long, as they are cut from a text. */
  ghost predicate Sized(es: seq<Entry>) {
    forall i :: 0 <= i < |es| && es[i].content.Some? ==> |es[i].content.value| == 64
  }

  lemma ParsedAreSized(entries: seq<(string, string)>)
    ensures Sized(Parsed(entries))
  {
  }

  predicate SameHashes(a: Entry, b: Entry) {
    a.content == b.content && a.previous == b.previous && a.chain == b.chain
  }

  ghost predicate Collision(hash: Hash, x: string, y: string) {
    x != y && hash(x) == hash(y)
  }

  /** What the link of entry `k` is the hash of: its content hash and its previous link. */
  function Hashed(es: seq<Entry>, k: nat): Option<string>
    requires k < |es|
  {
    if es[k].content.Some? && es[k].previous.Some? then Some(es[k].content.value + es[k].previous.value) else None
  }

  /** The texts that entries `k` of the two ledgers hash differ, and have one hash. */
  ghost predicate CollideAt(hash: Hash, a: seq<Entry>, b: seq<Entry>, k: nat) {
    0 < k < |a| && k < |b| && Hashed(a, k).Some? && Hashed(b, k).Some? &&
    Collision(hash, Hashed(a, k).value, Hashed(b, k).value)
  }

  /** Content, chain and (the genesis entry's aside) previous hashes agree up to entry `n`. */
  ghost predicate SameUpTo(a: seq<Entry>, b: seq<Entry>, n: nat)
    requires n < |a| && n < |b|
  {
    a[0].content == b[0].content && a[0].chain == b[0].chain && forall i :: 1 <= i <= n ==> SameHashes(a[i], b[i])
  }

  /** Two verified ledgers that start with their genesis entry, with the same link `n`: all their hashes up
      to there agree, or the texts that two entries in the same place hash collide. */
  lemma {:induction false} LastLinkDetermines(hash: Hash, a: seq<Entry>, b: seq<Entry>, n: nat) returns (k: nat)
    requires Verifies(hash, a) && Verifies(hash, b) && Sized(a) && Sized(b)
    requires n < |a| && n < |b| && IsGenesis(a[0]) && IsGenesis(b[0]) && Link(a[n]) == Link(b[n])
    ensures SameUpTo(a, b, n) || (k <= n && CollideAt(hash, a, b, k))
  {
    k := n;
    if n > 0 {
      assert ChainedAt(hash, a, n) && ChainedAt(hash, b, n);
      var s, t := a[n].content.value + a[n].previous.value, b[n].content.value + b[n].previous.value;
      if s == t {
        assert a[n].content.value == s[..64] && b[n].content.value == t[..64];
        assert a[n].previous.value == s[64..] && b[n].previous.value == t[64..];
        k := LastLinkDetermines(hash, a, b, n - 1);
      }
    }
  }

  /** The texts of two ledgers: same number of entries and same last link, and nothing was altered. */
  lemma LedgerIsDetermined(hash: Hash, s: string, t: string) returns (k: nat)
    requires LedgerErrors(hash, s) == [] && LedgerErrors(hash, t) == []
    requires |Entries(s)| == |Entries(t)|
    requires var a, b := Parsed(Entries(s)), Parsed(Entries(t));
             a != [] && b != [] && IsGenesis(a[0]) && IsGenesis(b[0]) && Link(a[|a| - 1]) == Link(b[|b| - 1])
    ensures var a, b := Parsed(Entries(s)), Parsed(Entries(t));
            SameUpTo(a, b, |a| - 1) || CollideAt(hash, a, b, k)
  {
    var a, b := Parsed(Entries(s)), Parsed(Entries(t));
    LedgerVerifiesExactly(hash, s);
    LedgerVerifiesExactly(hash, t);
    ParsedAreSized(Entries(s));
    ParsedAreSized(Entries(t));
    k := LastLinkDetermines(hash, a, b, |a| - 1);
  }
}
