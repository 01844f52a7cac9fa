/** The ear's eventstore: object names, and recovering the order of arrival from them. */
module Capture {
  import opened Prelude
  import opened Aliases
  import opened GNodes
  import opened ForestReads
  import opened Topology

  datatype CaptureObject = CaptureObject(key: string, typeName: string, persistedMs: nat, arrival: nat)

  const CREATE_CMD := "g.node.create.cmd"
  const REPARENT_CMD := "g.node.reparent.cmd"
  const FOREST := "g.node.forest"

  predicate ReplayType(t: string) { t == CREATE_CMD || t == REPARENT_CMD || t == FOREST }

  // ---- numbers ----

  predicate Digit(c: char) { '0' <= c <= '9' }

  predicate AllDigits(s: string) { s != "" && forall i :: 0 <= i < |s| ==> Digit(s[i]) }

  function DigitChar(d: nat): char
    requires d < 10
  {
    '0' + d as char
  }

  function PrintNat(n: nat): (s: string)
    ensures AllDigits(s)
  {
    if n < 10 then [DigitChar(n)] else PrintNat(n / 10) + [DigitChar(n % 10)]
  }

  function ParseNat(s: string): nat
    requires forall i :: 0 <= i < |s| ==> Digit(s[i])
  {
    if s == "" then 0
    else
      assert Digit(s[|s| - 1]);
      ParseNat(s[..|s| - 1]) * 10 + (s[|s| - 1] as int - '0' as int)
  }

  lemma {:induction false} ParsePrinted(n: nat)
    ensures ParseNat(PrintNat(n)) == n
  {
    var s := PrintNat(n);
    if n < 10 {
      assert s[..|s| - 1] == "";
    } else {
      ParsePrinted(n / 10);
      assert s[..|s| - 1] == PrintNat(n / 10);
    }
  }

  // ---- names ----

  function LastSlash(s: string): (i: int)
    ensures -1 <= i < |s|
    ensures i >= 0 ==> s[i] == '/'
    ensures forall k :: i < k < |s| ==> s[k] != '/'
  {
    if s == "" then -1
    else if s[|s| - 1] == '/' then |s| - 1
    else LastSlash(s[..|s| - 1])
  }

  function FirstDash(s: string): (i: nat)
    ensures i <= |s|
    ensures i < |s| ==> s[i] == '-'
    ensures forall k :: 0 <= k < i ==> s[k] != '-'
  {
    if s == "" || s[0] == '-' then 0 else 1 + FirstDash(s[1..])
  }

  /** What follows the first dash. */
  function AfterDash(s: string): (rest: string)
    ensures FirstDash(s) < |s| ==> |rest| < |s|
  {
    if FirstDash(s) < |s| then s[FirstDash(s) + 1..] else ""
  }

  /** `s.split("-")`. */
  function Dashed(s: string): (parts: seq<string>)
    ensures parts != []
    decreases |s|
  {
    if FirstDash(s) == |s| then [s] else [s[..FirstDash(s)]] + Dashed(AfterDash(s))
  }

  /** The four dashed parts of a name without its suffix. */
  function ParseStem(key: string, stem: string): Option<CaptureObject> {
    var parts := Dashed(stem);
    if |parts| != 4 || !AllDigits(parts[2]) then None
    else Some(CaptureObject(key, parts[1], ParseNat(parts[2]), ArrivalIn(parts[3])))
  }

  /** The arrival counter a source token carries. */
  function ArrivalIn(source: string): nat {
    if AllDigits(LastWord(source)) then ParseNat(LastWord(source)) else 1
  }

  /** The ear's name grammar, read off a key under any directory. */
  function ParseKey(key: string): Option<CaptureObject> {
    var name := key[LastSlash(key) + 1..];
    if !EndsWith(name, ".json") then None else ParseStem(key, name[..|name| - |".json"|])
  }

  /** The name of the `counter`-th object of its millisecond. */
  function Suffixed(source: string, counter: nat): string {
    if counter >= 2 then source + "." + PrintNat(counter) else source
  }

  function Dash(a: string, rest: string): string { a + ("-" + rest) }

  function Stem(fromAlias: string, typeName: string, ms: nat, source: string): string {
    Dash(fromAlias, Dash(typeName, Dash(PrintNat(ms), source)))
  }

  function PrintName(fromAlias: string, typeName: string, ms: nat, source: string): string {
    Stem(fromAlias, typeName, ms, source) + ".json"
  }

  /** A key is a name, possibly under a directory of any depth. */
  predicate IsKeyOf(key: string, name: string) {
    key == name || exists k: nat :: k < |key| && key[k] == '/' && key[k + 1..] == name
  }

  predicate PlainToken(s: string) { '-' !in s && '/' !in s }

  lemma DashedCons(a: string, rest: string)
    requires '-' !in a
    ensures Dashed(Dash(a, rest)) == [a] + Dashed(rest)
  {
    var s := Dash(a, rest);
    assert s[|a|] == '-';
    assert forall k :: 0 <= k < |a| ==> s[k] == a[k] && a[k] in a;
    assert FirstDash(s) == |a|;
    assert s[..|a|] == a && s[|a| + 1..] == rest;
  }

  lemma DashedOne(a: string)
    requires '-' !in a
    ensures Dashed(a) == [a]
  {
    assert forall k :: 0 <= k < |a| ==> a[k] in a;
  }

  lemma DashSlashFree(a: string, rest: string)
    requires '/' !in a && '/' !in rest
    ensures '/' !in Dash(a, rest)
  {}

  lemma DashedOnto(a: string, rest: string, parts: seq<string>)
    requires '-' !in a && Dashed(rest) == parts
    ensures Dashed(Dash(a, rest)) == [a] + parts
  {
    DashedCons(a, rest);
  }

  lemma FourParts(a: string, b: string, c: string, d: string)
    ensures [a] + ([b] + ([c] + [d])) == [a, b, c, d]
  {}

  lemma FourDashed(a: string, b: string, c: string, d: string)
    requires '-' !in a && '-' !in b && '-' !in c && '-' !in d
    ensures Dashed(Dash(a, Dash(b, Dash(c, d)))) == [a, b, c, d]
  {
    var cd := Dash(c, d);
    var bcd := Dash(b, cd);
    assert Dashed(cd) == [c] + [d] by { DashedOne(d); DashedOnto(c, d, [d]); }
    assert Dashed(bcd) == [b] + ([c] + [d]) by { DashedOnto(b, cd, [c] + [d]); }
    DashedOnto(a, bcd, [b] + ([c] + [d]));
    FourParts(a, b, c, d);
  }

  lemma NameSlashFree(fromAlias: string, typeName: string, ms: nat, source: string)
    requires PlainToken(fromAlias) && PlainToken(typeName) && PlainToken(source)
    ensures '/' !in PrintName(fromAlias, typeName, ms, source)
  {
    DigitsPlain(PrintNat(ms));
    DashSlashFree(PrintNat(ms), source);
    DashSlashFree(typeName, Dash(PrintNat(ms), source));
    DashSlashFree(fromAlias, Dash(typeName, Dash(PrintNat(ms), source)));
    assert '/' !in ".json";
  }

  lemma DigitsPlain(s: string)
    requires AllDigits(s)
    ensures PlainToken(s) && '.' !in s
  {}

  lemma LastSlashAt(s: string, i: int)
    requires -1 <= i < |s| && (i >= 0 ==> s[i] == '/')
    requires forall k :: i < k < |s| ==> s[k] != '/'
    ensures LastSlash(s) == i
  {}

  lemma KeyName(key: string, name: string)
    requires IsKeyOf(key, name) && '/' !in name
    ensures key[LastSlash(key) + 1..] == name
  {
    if key == name {
      LastSlashAt(key, -1) by { assert forall j :: 0 <= j < |key| ==> key[j] in key; }
    } else {
      var k: nat :| k < |key| && key[k] == '/' && key[k + 1..] == name;
      forall j | k < j < |key| ensures key[j] != '/' {
        assert key[j] == name[j - k - 1] && name[j - k - 1] in name;
      }
      LastSlashAt(key, k);
    }
  }

  lemma NameParts(name: string, stem: string)
    requires name == stem + ".json"
    ensures EndsWith(name, ".json") && name[..|name| - |".json"|] == stem
  {
    assert name[|stem|..] == ".json";
  }

  lemma KeyParses(key: string, stem: string)
    requires key[LastSlash(key) + 1..] == stem + ".json"
    ensures ParseKey(key) == ParseStem(key, stem)
  {
    NameParts(key[LastSlash(key) + 1..], stem);
  }

  lemma ParsePrintedStem(key: string, fromAlias: string, typeName: string, ms: nat, source: string)
    requires PlainToken(fromAlias) && PlainToken(typeName) && PlainToken(source)
    ensures ParseStem(key, Stem(fromAlias, typeName, ms, source)) == Some(CaptureObject(key, typeName, ms, ArrivalIn(source)))
  {
    DigitsPlain(PrintNat(ms));
    FourDashed(fromAlias, typeName, PrintNat(ms), source);
    ParsePrinted(ms);
  }

  /** Parsing a printed name, under any directory, gives back its type and millisecond, and the
      number in its last source segment. */
  lemma ParsePrintedName(key: string, fromAlias: string, typeName: string, ms: nat, source: string)
    requires PlainToken(fromAlias) && PlainToken(typeName) && PlainToken(source)
    requires IsKeyOf(key, PrintName(fromAlias, typeName, ms, source))
    ensures ParseKey(key) == Some(CaptureObject(key, typeName, ms, ArrivalIn(source)))
  {
    NameSlashFree(fromAlias, typeName, ms, source);
    KeyName(key, PrintName(fromAlias, typeName, ms, source));
    KeyParses(key, Stem(fromAlias, typeName, ms, source));
    ParsePrintedStem(key, fromAlias, typeName, ms, source);
  }

  lemma NumberedSource(source: string, counter: nat)
    requires PlainToken(source) && counter >= 2
    ensures PlainToken(Suffixed(source, counter)) && ArrivalIn(Suffixed(source, counter)) == counter
  {
    DigitsPlain(PrintNat(counter));
    JoinLast(source, PrintNat(counter));
    ParsePrinted(counter);
    assert PlainToken(source + "." + PrintNat(counter));
  }

  lemma CounterComesBack(source: string, counter: nat)
    requires PlainToken(source) && counter >= 1
    ensures PlainToken(Suffixed(source, counter))
    ensures ArrivalIn(Suffixed(source, counter)) == counter
            <==> (counter >= 2 || !AllDigits(LastWord(source)) || ParseNat(LastWord(source)) == 1)
  {
    if counter >= 2 { NumberedSource(source, counter); }
  }

  /** The name grammar round trip, exactly: type, millisecond and arrival counter come back if and
      only if the object is not the first of its millisecond, or its source's last segment is not a
      number, or is the number one. */
  lemma NameRoundTrip(key: string, fromAlias: string, typeName: string, ms: nat, source: string, counter: nat)
    requires PlainToken(fromAlias) && PlainToken(typeName) && PlainToken(source) && counter >= 1
    requires IsKeyOf(key, PrintName(fromAlias, typeName, ms, Suffixed(source, counter)))
    ensures ParseKey(key) == Some(CaptureObject(key, typeName, ms, counter))
            <==> (counter >= 2 || !AllDigits(LastWord(source)) || ParseNat(LastWord(source)) == 1)
  {
    CounterComesBack(source, counter);
    var token := Suffixed(source, counter);
    ParsePrintedName(key, fromAlias, typeName, ms, token);
    assert ParseKey(key) == Some(CaptureObject(key, typeName, ms, counter)) <==> ArrivalIn(token) == counter;
  }

  // ---- which names parse ----

  lemma SplitAtDash(s: string, i: nat)
    requires i < |s| && s[i] == '-'
    ensures s == Dash(s[..i], s[i + 1..])
  {}

  lemma HeadDashed(s: string)
    requires FirstDash(s) < |s|
    ensures Dashed(s) == [s[..FirstDash(s)]] + Dashed(AfterDash(s))
  {}

  lemma ManyDashed(s: string)
    requires |Dashed(s)| > 1
    ensures FirstDash(s) < |s|
  {}

  lemma ConsParts(parts: seq<string>, w: string, rest: seq<string>)
    requires parts == [w] + rest
    ensures parts[0] == w && parts[1..] == rest
  {}

  lemma DashedSplit(s: string)
    requires |Dashed(s)| > 1
    ensures s == Dash(Dashed(s)[0], AfterDash(s)) && Dashed(s)[1..] == Dashed(AfterDash(s))
  {
    ManyDashed(s);
    HeadDashed(s);
    SplitAtDash(s, FirstDash(s));
    ConsParts(Dashed(s), s[..FirstDash(s)], Dashed(AfterDash(s)));
  }

  lemma BeforeDash(s: string)
    ensures '-' !in s[..FirstDash(s)]
  {
    var w := s[..FirstDash(s)];
    assert forall k :: 0 <= k < |w| ==> w[k] == s[k];
  }

  lemma {:induction false} DashedPlain(s: string)
    ensures forall p :: p in Dashed(s) ==> '-' !in p
    decreases |s|
  {
    BeforeDash(s);
    if FirstDash(s) < |s| {
      HeadDashed(s);
      DashedPlain(AfterDash(s));
    } else {
      assert s[..FirstDash(s)] == s;
    }
  }

  lemma DashedLast(s: string)
    requires |Dashed(s)| == 1
    ensures Dashed(s)[0] == s
  {}

  lemma FourJoined(s: string)
    requires |Dashed(s)| == 4
    ensures var p := Dashed(s); s == Dash(p[0], Dash(p[1], Dash(p[2], p[3])))
  {
    var p, t := Dashed(s), AfterDash(s);
    var u := AfterDash(t);
    DashedSplit(s);
    assert Dashed(t) == [p[1], p[2], p[3]];
    DashedSplit(t);
    assert Dashed(u) == [p[2], p[3]];
    DashedSplit(u);
    assert Dashed(AfterDash(u)) == [p[3]];
    DashedLast(AfterDash(u));
  }

  /** The part of the key after its last slash is four dash-free tokens joined by dashes, the third all
      digits, and the suffix. */
  predicate Named(key: string, fromAlias: string, typeName: string, ms: string, source: string) {
    && key[LastSlash(key) + 1..] == Dash(fromAlias, Dash(typeName, Dash(ms, source))) + ".json"
    && '-' !in fromAlias && '-' !in typeName && '-' !in ms && '-' !in source && AllDigits(ms)
  }

  lemma StemParses(key: string, fromAlias: string, typeName: string, ms: string, source: string)
    requires '-' !in fromAlias && '-' !in typeName && '-' !in ms && '-' !in source && AllDigits(ms)
    ensures ParseStem(key, Dash(fromAlias, Dash(typeName, Dash(ms, source))))
            == Some(CaptureObject(key, typeName, ParseNat(ms), ArrivalIn(source)))
  {
    FourDashed(fromAlias, typeName, ms, source);
  }

  lemma NamedParses(key: string, fromAlias: string, typeName: string, ms: string, source: string)
    requires Named(key, fromAlias, typeName, ms, source)
    ensures ParseKey(key) == Some(CaptureObject(key, typeName, ParseNat(ms), ArrivalIn(source)))
  {
    KeyParses(key, Dash(fromAlias, Dash(typeName, Dash(ms, source))));
    StemParses(key, fromAlias, typeName, ms, source);
  }

  /** The name of a key without its suffix. */
  function StemOf(key: string): string
    requires EndsWith(key[LastSlash(key) + 1..], ".json")
  {
    var name := key[LastSlash(key) + 1..];
    name[..|name| - |".json"|]
  }

  lemma ParsedStem(key: string)
    requires ParseKey(key).Some?
    ensures EndsWith(key[LastSlash(key) + 1..], ".json")
    ensures |Dashed(StemOf(key))| == 4 && AllDigits(Dashed(StemOf(key))[2])
    ensures key[LastSlash(key) + 1..] == StemOf(key) + ".json"
  {
    var name := key[LastSlash(key) + 1..];
    assert name == name[..|name| - |".json"|] + name[|name| - |".json"|..];
  }

  lemma ParsedIsNamed(key: string)
    requires ParseKey(key).Some?
    ensures exists a, t, ms, s :: Named(key, a, t, ms, s)
  {
    ParsedStem(key);
    FourJoined(StemOf(key));
    DashedPlain(StemOf(key));
    var p := Dashed(StemOf(key));
    assert p[0] in p && p[1] in p && p[2] in p && p[3] in p;
    assert Named(key, p[0], p[1], p[2], p[3]);
  }

  /** Exactly the keys so named parse, and to what their tokens say. */
  lemma ParsesIffNamed(key: string)
    ensures ParseKey(key).Some? <==> exists a, t, ms, s :: Named(key, a, t, ms, s)
    ensures forall a, t, ms, s :: Named(key, a, t, ms, s) ==>
              ParseKey(key) == Some(CaptureObject(key, t, ParseNat(ms), ArrivalIn(s)))
  {
    forall a, t, ms, s | Named(key, a, t, ms, s)
      ensures ParseKey(key) == Some(CaptureObject(key, t, ParseNat(ms), ArrivalIn(s)))
    {
      NamedParses(key, a, t, ms, s);
    }
    if ParseKey(key).Some? { ParsedIsNamed(key); }
  }

  /** A heartbeat's name, `<alias>-hb-<alias>`, is outside the grammar. */
  lemma HeartbeatUnparsed(key: string, fromAlias: string, other: string)
    requires '-' !in fromAlias && '-' !in other
    requires key[LastSlash(key) + 1..] == Dash(fromAlias, Dash("hb", other)) + ".json"
    ensures ParseKey(key).None?
  {
    KeyParses(key, Dash(fromAlias, Dash("hb", other)));
    DashedOne(other);
    DashedOnto("hb", other, [other]);
    DashedOnto(fromAlias, Dash("hb", other), ["hb"] + [other]);
    assert |[fromAlias] + (["hb"] + [other])| == 3;
  }

  /** The alias format does allow a last segment that is a number: an ear under such an alias has
      its plain names taken for the seventh of their millisecond. */
  lemma NumberedSourceIsLegal()
    ensures LeftRightDot("d1.7") && AllDigits(LastWord("d1.7")) && ParseNat(LastWord("d1.7")) == 7
  {
    JoinLast("d1", "7");
    assert "d1" + "." + "7" == "d1.7";
    assert "7"[..0] == "";
    assert ParseNat("") == 0;
  }

  // ---- the ear ----

  /** A message as the ear hears it, the millisecond it persists it, and where its object goes. */
  datatype Heard = Heard(fromAlias: string, typeName: string, ms: nat, key: string)

  /** The ear's same-millisecond rule: a message in the millisecond of the one before gets the next
      counter of that millisecond; any other starts again at one. */
  function EarCounter(ms: nat, lastMs: nat, count: nat): nat {
    if ms == lastMs then count + 1 else 1
  }

  /** A stream named by that rule: times never go back, tokens are dash- and slash-free. `count`
      messages have been persisted in millisecond `lastMs` so far. */
  ghost predicate NamedByEar(stream: seq<Heard>, source: string, lastMs: nat, count: nat)
    decreases |stream|
  {
    stream != [] ==>
      var h := stream[0];
      && lastMs <= h.ms && PlainToken(h.fromAlias) && PlainToken(h.typeName)
      && IsKeyOf(h.key, PrintName(h.fromAlias, h.typeName, h.ms, Suffixed(source, EarCounter(h.ms, lastMs, count))))
      && NamedByEar(stream[1..], source, h.ms, EarCounter(h.ms, lastMs, count))
  }

  /** A source whose plain names are not taken for numbered ones: it may end in the number one. */
  predicate EarSource(source: string) {
    PlainToken(source) && (AllDigits(LastWord(source)) ==> ParseNat(LastWord(source)) == 1)
  }

  /** The objects of a stream, in order of arrival. */
  function Arrivals(stream: seq<Heard>, lastMs: nat, count: nat): seq<CaptureObject>
    decreases |stream|
  {
    if stream == [] then []
    else
      var h := stream[0];
      var c := EarCounter(h.ms, lastMs, count);
      [CaptureObject(h.key, h.typeName, h.ms, c)] + Arrivals(stream[1..], h.ms, c)
  }

  /** When each message was persisted. */
  function Times(stream: seq<Heard>): (times: seq<nat>)
    ensures |times| == |stream|
    ensures forall k :: 0 <= k < |stream| ==> times[k] == stream[k].ms
  {
    seq(|stream|, k requires 0 <= k < |stream| => stream[k].ms)
  }

  lemma {:induction false} TimesAscend(stream: seq<Heard>, source: string, lastMs: nat, count: nat, k: nat)
    requires NamedByEar(stream, source, lastMs, count) && k < |stream|
    ensures lastMs <= stream[k].ms
    decreases |stream|
  {
    if k > 0 {
      TimesAscend(stream[1..], source, stream[0].ms, EarCounter(stream[0].ms, lastMs, count), k - 1);
      assert stream[1..][k - 1] == stream[k];
    }
  }

  /** How many of the first `k + 1` messages were persisted in the millisecond `ms`. */
  function Persisted(stream: seq<Heard>, k: nat, ms: nat): nat
    requires k < |stream|
  {
    multiset(Times(stream)[..k + 1])[ms]
  }

  lemma PersistedFirst(stream: seq<Heard>, k: nat, ms: nat)
    requires k < |stream|
    ensures Persisted(stream, k, ms)
            == (if stream[0].ms == ms then 1 else 0) + if k == 0 then 0 else Persisted(stream[1..], k - 1, ms)
  {
    var first := [stream[0].ms];
    if k == 0 {
      assert Times(stream)[..1] == first;
    } else {
      assert Times(stream)[..k + 1] == first + Times(stream[1..])[..k];
    }
  }

  lemma ArrivalsCons(stream: seq<Heard>, lastMs: nat, count: nat, k: nat)
    requires k < |stream| && (k > 0 ==> k - 1 < |Arrivals(stream[1..], stream[0].ms, EarCounter(stream[0].ms, lastMs, count))|)
    ensures var c := EarCounter(stream[0].ms, lastMs, count);
            && k < |Arrivals(stream, lastMs, count)|
            && Arrivals(stream, lastMs, count)[k].arrival
               == if k == 0 then c else Arrivals(stream[1..], stream[0].ms, c)[k - 1].arrival
  {}

  /** An object's arrival counter is how many messages of its millisecond were persisted up to it. */
  lemma {:induction false} CountersCount(stream: seq<Heard>, source: string, lastMs: nat, count: nat, k: nat)
    requires NamedByEar(stream, source, lastMs, count) && k < |stream|
    ensures k < |Arrivals(stream, lastMs, count)|
    ensures Arrivals(stream, lastMs, count)[k].arrival
            == Persisted(stream, k, stream[k].ms) + if stream[k].ms == lastMs then count else 0
    decreases |stream|
  {
    var h := stream[0];
    var c := EarCounter(h.ms, lastMs, count);
    PersistedFirst(stream, k, stream[k].ms);
    if k > 0 {
      CountersCount(stream[1..], source, h.ms, c, k - 1);
      TimesAscend(stream[1..], source, h.ms, c, k - 1);
    }
    ArrivalsCons(stream, lastMs, count, k);
  }

  function Keys(stream: seq<Heard>): (keys: seq<string>)
    ensures |keys| == |stream|
    ensures forall k :: 0 <= k < |stream| ==> keys[k] == stream[k].key
  {
    seq(|stream|, k requires 0 <= k < |stream| => stream[k].key)
  }

  function ReplayOnly(objects: seq<CaptureObject>): seq<CaptureObject> {
    if objects == [] then []
    else (if ReplayType(objects[0].typeName) then [objects[0]] else []) + ReplayOnly(objects[1..])
  }

  // ---- capture_objects ----

  /** What one listed key contributes. */
  function Contribution(key: string): seq<CaptureObject> {
    var o := ParseKey(key);
    if o.Some? && ReplayType(o.value.typeName) then [o.value] else []
  }

  /** The replayable objects of a listing, as listed. */
  function Selected(keys: seq<string>): seq<CaptureObject> { FlatMap(Contribution, keys) }

  /** Capture order: millisecond, then arrival counter, then key. */
  predicate CaptureLeq(x: CaptureObject, y: CaptureObject) {
    || x.persistedMs < y.persistedMs
    || (x.persistedMs == y.persistedMs && x.arrival < y.arrival)
    || (x.persistedMs == y.persistedMs && x.arrival == y.arrival && StringLeq(x.key, y.key))
  }

  /** The type a listed key is skipped for, if it is. */
  function Skipped(key: string): seq<string> {
    var o := ParseKey(key);
    if o.Some? && !ReplayType(o.value.typeName) then [o.value.typeName] else []
  }

  function Unparsed(key: string): seq<string> { if ParseKey(key).None? then [key] else [] }

  /** Every key is exactly one of: selected as the object it parses to, skipped under its type, unparsed. */
  lemma ClassifiedOnce(key: string)
    ensures |Contribution(key)| + |Skipped(key)| + |Unparsed(key)| == 1
    ensures Unparsed(key) == [key] <==> !exists a, t, ms, s :: Named(key, a, t, ms, s)
    ensures forall a, t, ms, s :: Named(key, a, t, ms, s) ==>
              if t == "g.node.create.cmd" || t == "g.node.reparent.cmd" || t == "g.node.forest"
              then Contribution(key) == [CaptureObject(key, t, ParseNat(ms), ArrivalIn(s))]
              else Skipped(key) == [t]
  {
    ParsesIffNamed(key);
  }

  /** What is known after listing some keys. */
  datatype Listing = Listing(selected: seq<CaptureObject>, skipped: set<string>, unparsed: nat)

  /** One turn of the listing loop. */
  method Classify(l: Listing, key: string) returns (l': Listing)
    ensures l'.selected == l.selected + Contribution(key)
    ensures l'.skipped == l.skipped + Members(Skipped(key))
    ensures l'.unparsed == l.unparsed + |Unparsed(key)|
  {
    var parsed := ParseKey(key);
    if parsed.None? {
      l' := l.(unparsed := l.unparsed + 1);
    } else if ReplayType(parsed.value.typeName) {
      l' := l.(selected := l.selected + [parsed.value]);
    } else {
      l' := l.(skipped := l.skipped + {parsed.value.typeName});
    }
  }

  /** The listing loop after `k` keys. */
  ghost predicate Listed(l: Listing, keys: seq<string>, k: nat) {
    && k <= |keys|
    && l.selected == FlatMap(Contribution, keys[..k])
    && l.skipped == Members(FlatMap(Skipped, keys[..k]))
    && l.unparsed == |FlatMap(Unparsed, keys[..k])|
  }

  lemma ListedTurn(l: Listing, keys: seq<string>, k: nat, l': Listing)
    requires k < |keys| && Listed(l, keys, k)
    requires l'.selected == l.selected + Contribution(keys[k])
    requires l'.skipped == l.skipped + Members(Skipped(keys[k]))
    requires l'.unparsed == l.unparsed + |Unparsed(keys[k])|
    ensures Listed(l', keys, k + 1)
  {
    FlatMapSnoc(Contribution, keys, k);
    FlatMapSnoc(Skipped, keys, k);
    FlatMapSnoc(Unparsed, keys, k);
    MembersConcat(FlatMap(Skipped, keys[..k]), Skipped(keys[k]));
  }

  /** Lists the keys once: replayable objects in capture order, the other types, and how many names
      are outside the grammar. */
  method CaptureObjects(keys: seq<string>) returns (objects: seq<CaptureObject>, skipped: set<string>, unparsed: nat)
    ensures objects == SortBy(Selected(keys), CaptureLeq)
    ensures skipped == Members(FlatMap(Skipped, keys)) && unparsed == |FlatMap(Unparsed, keys)|
  {
    var l := Listing([], {}, 0);
    assert keys[..0] == [] && keys[..|keys|] == keys;
    for k := 0 to |keys|
      invariant Listed(l, keys, k)
    {
      var l' := Classify(l, keys[k]);
      ListedTurn(l, keys, k, l');
      l := l';
    }
    objects, skipped, unparsed := SortBy(l.selected, CaptureLeq), l.skipped, l.unparsed;
  }

  /** Whatever a store lists, what is replayed is the listing's replayable objects, each as often as it
      is listed, by millisecond, then by arrival counter, then by key. */
  lemma CaptureOrdered(keys: seq<string>)
    ensures var objects := SortBy(Selected(keys), CaptureLeq);
            && multiset(objects) == multiset(Selected(keys))
            && forall i, j :: 0 <= i < j < |objects| ==>
                 var x, y := objects[i], objects[j];
                 || x.persistedMs < y.persistedMs
                 || (x.persistedMs == y.persistedMs && x.arrival < y.arrival)
                 || (x.persistedMs == y.persistedMs && x.arrival == y.arrival && ComesFirst(x.key, y.key))
  {
    CaptureLeqOrder(Selected(keys));
    SortBySorted(Selected(keys), CaptureLeq);
    SortByPermutes(Selected(keys), CaptureLeq);
    var objects := SortBy(Selected(keys), CaptureLeq);
    forall i, j | 0 <= i < j < |objects|
      ensures CaptureLeq(objects[i], objects[j])
      ensures StringLeq(objects[i].key, objects[j].key) <==> ComesFirst(objects[i].key, objects[j].key)
    {
      StringLeqMeans(objects[i].key, objects[j].key);
    }
  }

  // ---- recovery ----

  /** Every key of an ear-named stream parses to its arrival. */
  lemma {:induction false} ArrivalsParse(stream: seq<Heard>, source: string, lastMs: nat, count: nat)
    requires EarSource(source) && NamedByEar(stream, source, lastMs, count)
    ensures Selected(Keys(stream)) == ReplayOnly(Arrivals(stream, lastMs, count))
    decreases |stream|
  {
    if stream != [] {
      var h := stream[0];
      var c := EarCounter(h.ms, lastMs, count);
      FirstParses(stream, source, lastMs, count);
      ArrivalsParse(stream[1..], source, h.ms, c);
      assert Keys(stream)[0] == h.key && Keys(stream)[1..] == Keys(stream[1..]);
      var all := Arrivals(stream, lastMs, count);
      assert all[0] == CaptureObject(h.key, h.typeName, h.ms, c) && all[1..] == Arrivals(stream[1..], h.ms, c);
    }
  }

  lemma FirstParses(stream: seq<Heard>, source: string, lastMs: nat, count: nat)
    requires EarSource(source) && stream != [] && NamedByEar(stream, source, lastMs, count)
    ensures var h := stream[0];
            ParseKey(h.key) == Some(CaptureObject(h.key, h.typeName, h.ms, EarCounter(h.ms, lastMs, count)))
  {
    var h := stream[0];
    NameRoundTrip(h.key, h.fromAlias, h.typeName, h.ms, source, EarCounter(h.ms, lastMs, count));
  }

  predicate Later(ms: nat, arrival: nat, o: CaptureObject) {
    ms < o.persistedMs || (ms == o.persistedMs && arrival < o.arrival)
  }

  /** Arrivals strictly ascend in millisecond and counter: no two share both. */
  ghost predicate Ascending(objects: seq<CaptureObject>) {
    forall i, j :: 0 <= i < j < |objects| ==> Later(objects[i].persistedMs, objects[i].arrival, objects[j])
  }

  lemma {:induction false} ArrivalsAscend(stream: seq<Heard>, source: string, lastMs: nat, count: nat)
    requires NamedByEar(stream, source, lastMs, count)
    ensures Ascending(Arrivals(stream, lastMs, count))
    ensures forall o :: o in Arrivals(stream, lastMs, count) ==> Later(lastMs, count, o)
    decreases |stream|
  {
    if stream != [] {
      var h := stream[0];
      var c := EarCounter(h.ms, lastMs, count);
      ArrivalsAscend(stream[1..], source, h.ms, c);
      var all, rest := Arrivals(stream, lastMs, count), Arrivals(stream[1..], h.ms, c);
      assert all[0] == CaptureObject(h.key, h.typeName, h.ms, c) && all[1..] == rest;
      forall i, j | 0 <= i < j < |all| ensures Later(all[i].persistedMs, all[i].arrival, all[j]) {
        assert all[j] == rest[j - 1] && rest[j - 1] in rest;
      }
    }
  }

  lemma {:induction false} ReplayOnlyAscends(objects: seq<CaptureObject>)
    requires Ascending(objects)
    ensures Ascending(ReplayOnly(objects)) && forall o :: o in ReplayOnly(objects) ==> o in objects
  {
    if objects != [] {
      ReplayOnlyAscends(objects[1..]);
      var rest := ReplayOnly(objects[1..]);
      var all := ReplayOnly(objects);
      if ReplayType(objects[0].typeName) {
        forall i, j | 0 <= i < j < |all| ensures Later(all[i].persistedMs, all[i].arrival, all[j]) {
          assert all[j] == rest[j - 1] && rest[j - 1] in rest;
          var k :| 0 <= k < |objects[1..]| && objects[1..][k] == all[j];
          assert objects[k + 1] == all[j];
        }
      } else {
        assert all == rest;
      }
    }
  }

  lemma CaptureLeqOrder(s: seq<CaptureObject>)
    ensures Sortable(s, CaptureLeq)
  {
    StringLeqOrder();
  }

  lemma SortAscending(s: seq<CaptureObject>, t: seq<CaptureObject>)
    requires multiset(s) == multiset(t) && Ascending(t)
    ensures SortBy(s, CaptureLeq) == t
  {
    CaptureLeqOrder(s);
    SortBySorted(s, CaptureLeq);
    SortByPermutes(s, CaptureLeq);
    SameBag(s, t);
    SameBag(SortBy(s, CaptureLeq), t);
    forall x, y | x in t && y in t && CaptureLeq(x, y) && CaptureLeq(y, x) ensures x == y {
      var i :| 0 <= i < |t| && t[i] == x;
      var j :| 0 <= j < |t| && t[j] == y;
    }
    SortedUnique(t, SortBy(s, CaptureLeq), CaptureLeq);
  }

  /** Arrival order is recovered from any listing of an ear-named stream, in whatever order the
      store lists it; and no two objects agree in millisecond and counter, so the key never decides. */
  lemma ArrivalOrderRecovered(stream: seq<Heard>, source: string, listing: seq<string>)
    requires EarSource(source) && NamedByEar(stream, source, 0, 0)
    requires multiset(listing) == multiset(Keys(stream))
    ensures SortBy(Selected(listing), CaptureLeq) == ReplayOnly(Arrivals(stream, 0, 0))
    ensures Ascending(ReplayOnly(Arrivals(stream, 0, 0)))
  {
    FlatMapPermutes(Contribution, listing, Keys(stream));
    ArrivalsParse(stream, source, 0, 0);
    ArrivalsAscend(stream, source, 0, 0);
    ReplayOnlyAscends(Arrivals(stream, 0, 0));
    SortAscending(Selected(listing), ReplayOnly(Arrivals(stream, 0, 0)));
  }
}
