/** Redaction of error events: a depth-bounded rewriting of the event's tree, then the removal of
    the fields that identify a user.  The scrubbing of e-mail addresses and telephone numbers
    inside a string is a parameter. */
module SentryPrivacy {
  import opened Wrappers

  /** `Other` stands for null, undefined, numbers and booleans.  The fields of an object come in
      enumeration order. */
  datatype Value =
    | Text(s: string)
    | List(items: seq<Value>)
    | Object(fields: seq<(string, Value)>)
    | Other(tag: int)

  type Fields = seq<(string, Value)>
  type Scrub = string -> string

  const SENSITIVE_WORDS: seq<string> :=
    ["authorization", "cookie", "password", "secret", "token", "email", "phone", "address",
     "prompt", "message", "content", "document", "file", "body", "payload"]

  const URL_WORDS: seq<string> := ["url", "href", "callback", "checkout", "receipt"]

  const REDACTED := Text("[REDACTED]")
  const TRUNCATED := Text("[TRUNCATED]")
  const MAX_DEPTH := 8
  const MAX_ITEMS := 50

  function Lower(s: string): string {
    if s == [] then []
    else [if 'A' <= s[0] <= 'Z' then (s[0] as int + 32) as char else s[0]] + Lower(s[1..])
  }

  predicate OccursAt(word: string, text: string, i: int) {
    0 <= i <= |text| - |word| && text[i..i + |word|] == word
  }

  predicate Occurs(word: string, text: string) {
    exists i :: 0 <= i <= |text| && OccursAt(word, text, i)
  }

  /** A case-insensitive match of one of the words anywhere in the key. */
  predicate Mentions(key: string, words: seq<string>) {
    exists w :: 0 <= w < |words| && Occurs(words[w], Lower(key))
  }

  predicate Sensitive(key: string) {
    Mentions(key, SENSITIVE_WORDS)
  }

  predicate UrlKey(key: string) {
    Mentions(key, URL_WORDS)
  }

  predicate IsMark(c: char) {
    c == '?' || c == '#'
  }

  predicate NoMarks(s: string) {
    forall i :: 0 <= i < |s| ==> !IsMark(s[i])
  }

  function BeforeMark(s: string): string {
    if s == [] || IsMark(s[0]) then [] else [s[0]] + BeforeMark(s[1..])
  }

  function BeforeQuestion(s: string): string {
    if s == [] || s[0] == '?' then [] else [s[0]] + BeforeQuestion(s[1..])
  }

  function StripUrlQuery(scrub: Scrub, s: string): string {
    scrub(BeforeMark(s))
  }

  function Kept(n: nat): nat {
    if n > MAX_ITEMS then MAX_ITEMS else n
  }

  function Redact(scrub: Scrub, v: Value, depth: nat): Value
    decreases v, 0
  {
    if depth > MAX_DEPTH then TRUNCATED
    else match v
      case Text(s) => Text(scrub(s))
      case List(items) =>
        List(seq(Kept(|items|), i requires 0 <= i < Kept(|items|) => Redact(scrub, items[i], depth + 1)))
      case Object(fields) =>
        Object(seq(|fields|, i requires 0 <= i < |fields| =>
                     (fields[i].0, RedactField(scrub, fields[i].0, fields[i].1, depth + 1))))
      case Other(_) => v
  }

  function RedactField(scrub: Scrub, key: string, v: Value, depth: nat): Value
    decreases v, 1
  {
    if Sensitive(key) then REDACTED
    else if UrlKey(key) && v.Text? then Text(StripUrlQuery(scrub, v.s))
    else Redact(scrub, v, depth)
  }

  // ---------------------------------------------------------------- properties of an object

  function Lookup(fields: Fields, key: string): Option<Value> {
    if fields == [] then None else if fields[0].0 == key then Some(fields[0].1) else Lookup(fields[1..], key)
  }

  /** The `delete` operator. */
  function Delete(fields: Fields, key: string): Fields {
    if fields == [] then [] else (if fields[0].0 == key then [] else [fields[0]]) + Delete(fields[1..], key)
  }

  /** Assignment to a property that is there. */
  function Put(fields: Fields, key: string, v: Value): Fields {
    if fields == [] then []
    else [(fields[0].0, if fields[0].0 == key then v else fields[0].1)] + Put(fields[1..], key, v)
  }

  function SafeRequest(fields: Fields): Fields {
    var bare := Delete(Delete(Delete(fields, "data"), "cookies"), "headers");
    var url := Lookup(bare, "url");
    if url.Some? && url.value.Text? then Put(bare, "url", Text(BeforeQuestion(url.value.s))) else bare
  }

  function SafeFields(fields: Fields): Fields {
    var known := Delete(fields, "user");
    var request := Lookup(known, "request");
    if request.Some? && request.value.Object?
    then Put(known, "request", Object(SafeRequest(request.value.fields)))
    else known
  }

  /** The scrubbed event. */
  function ScrubEvent(scrub: Scrub, event: Value): Value {
    var redacted := Redact(scrub, event, 0);
    if redacted.Object? then Object(SafeFields(redacted.fields)) else redacted
  }

  method ScrubSentryEvent(scrub: Scrub, event: Value) returns (scrubbed: Value)
    ensures scrubbed == ScrubEvent(scrub, event)
  {
    scrubbed := Redact(scrub, event, 0);
    if !scrubbed.Object? {
      return;
    }
    scrubbed := Object(Delete(scrubbed.fields, "user"));
    var request := Lookup(scrubbed.fields, "request");
    if request.Some? && request.value.Object? {
      var safeRequest := request.value.fields;
      safeRequest := Delete(safeRequest, "data");
      safeRequest := Delete(safeRequest, "cookies");
      safeRequest := Delete(safeRequest, "headers");
      var url := Lookup(safeRequest, "url");
      if url.Some? && url.value.Text? {
        safeRequest := Put(safeRequest, "url", Text(BeforeQuestion(url.value.s)));
      }
      scrubbed := Object(Put(scrubbed.fields, "request", Object(safeRequest)));
    }
  }

  // ---------------------------------------------------------------- what a redacted tree looks like

  /** The hypotheses about the string scrub: idempotent, adds no query or fragment, and leaves
      the truncation mark alone. */
  ghost predicate ScrubOk(scrub: Scrub) {
    && (forall s :: scrub(scrub(s)) == scrub(s))
    && (forall s :: NoMarks(s) ==> NoMarks(scrub(s)))
    && scrub(TRUNCATED.s) == TRUNCATED.s
  }

  /** Nested at most `levels` deep, with lists of at most fifty items. */
  predicate Bounded(v: Value, levels: nat)
    decreases levels
  {
    match v
    case Text(_) => true
    case Other(_) => true
    case List(items) =>
      levels > 0 && |items| <= MAX_ITEMS && forall i :: 0 <= i < |items| ==> Bounded(items[i], levels - 1)
    case Object(fields) => levels > 0 && forall i :: 0 <= i < |fields| ==> Bounded(fields[i].1, levels - 1)
  }

  /** Sensitive fields are blanked, URL fields have no query or fragment, and every string is
      one that the scrub leaves alone: at every level. */
  predicate Private(scrub: Scrub, v: Value)
    decreases v, 0
  {
    match v
    case Text(s) => scrub(s) == s
    case Other(_) => true
    case List(items) => forall i :: 0 <= i < |items| ==> Private(scrub, items[i])
    case Object(fields) => forall i :: 0 <= i < |fields| ==> PrivateField(scrub, fields[i].0, fields[i].1)
  }

  predicate PrivateField(scrub: Scrub, key: string, v: Value)
    decreases v, 1
  {
    if Sensitive(key) then v == REDACTED
    else Private(scrub, v) && (UrlKey(key) && v.Text? ==> NoMarks(v.s))
  }

  lemma {:induction false} BeforeMarkHasNone(s: string)
    ensures NoMarks(BeforeMark(s)) && BeforeMark(s) <= s
    ensures NoMarks(s) ==> BeforeMark(s) == s
  {
    if s == [] || IsMark(s[0]) {
    } else {
      BeforeMarkHasNone(s[1..]);
      assert s == [s[0]] + s[1..];
    }
  }

  lemma TruncationHasNoMarks()
    ensures NoMarks(TRUNCATED.s)
  {
  }

  /** The output is bounded in depth and width, and private throughout. */
  lemma {:induction false} RedactedIsBoundedAndPrivate(scrub: Scrub, v: Value, depth: nat)
    requires ScrubOk(scrub) && depth <= MAX_DEPTH + 1
    ensures Bounded(Redact(scrub, v, depth), MAX_DEPTH + 1 - depth)
    ensures Private(scrub, Redact(scrub, v, depth))
    decreases v
  {
    hide Sensitive, UrlKey, NoMarks;
    TruncationHasNoMarks();
    if depth > MAX_DEPTH {
    } else {
      match v
      case Text(_) =>
      case Other(_) =>
      case List(items) =>
        forall i | 0 <= i < Kept(|items|)
          ensures Bounded(Redact(scrub, items[i], depth + 1), MAX_DEPTH - depth)
          ensures Private(scrub, Redact(scrub, items[i], depth + 1))
        {
          RedactedIsBoundedAndPrivate(scrub, items[i], depth + 1);
        }
      case Object(fields) =>
        forall i | 0 <= i < |fields|
          ensures Bounded(RedactField(scrub, fields[i].0, fields[i].1, depth + 1), MAX_DEPTH - depth)
          ensures PrivateField(scrub, fields[i].0, RedactField(scrub, fields[i].0, fields[i].1, depth + 1))
        {
          RedactedIsBoundedAndPrivate(scrub, fields[i].1, depth + 1);
          if fields[i].1.Text? { BeforeMarkHasNone(fields[i].1.s); }
        }
    }
  }

  /** `r` is the text of a URL up to its first query or fragment mark, scrubbed. */
  predicate UrlKept(scrub: Scrub, s: string, r: Value) {
    exists n :: 0 <= n <= |s| && IsBare(s, n) && r == Text(scrub(s[..n]))
  }

  /** The first `n` characters have no mark, and a mark follows or nothing. */
  predicate IsBare(s: string, n: int)
    requires 0 <= n <= |s|
  {
    NoMarks(s[..n]) && (n < |s| ==> IsMark(s[n]))
  }

  lemma {:induction false} BeforeMarkIsBare(s: string)
    ensures |BeforeMark(s)| <= |s| && BeforeMark(s) == s[..|BeforeMark(s)|] && IsBare(s, |BeforeMark(s)|)
  {
    if s == [] || IsMark(s[0]) {
    } else {
      BeforeMarkIsBare(s[1..]);
      assert s == [s[0]] + s[1..];
    }
  }

  /** What is left of a tree: down to the depth bound every string scrubbed, every list its first fifty
      items, every object its keys in order; under them sensitive values blanked, the text of URLs cut and
      scrubbed, and anything else treated alike; everything deeper truncated. */
  predicate KeysKept(scrub: Scrub, v: Value, r: Value, depth: nat)
    decreases v
  {
    if depth > MAX_DEPTH then r == TRUNCATED
    else match v
      case Text(s) => r == Text(scrub(s))
      case Other(_) => r == v
      case List(items) =>
        && r.List? && |r.items| == Kept(|items|)
        && forall i :: 0 <= i < |r.items| ==> KeysKept(scrub, items[i], r.items[i], depth + 1)
      case Object(fields) =>
        && r.Object? && |r.fields| == |fields|
        && forall i :: 0 <= i < |fields| ==>
             && r.fields[i].0 == fields[i].0
             && if Sensitive(fields[i].0) then r.fields[i].1 == REDACTED
                else if UrlKey(fields[i].0) && fields[i].1.Text? then UrlKept(scrub, fields[i].1.s, r.fields[i].1)
                else KeysKept(scrub, fields[i].1, r.fields[i].1, depth + 1)
  }

  lemma {:induction false} RedactKeepsKeys(scrub: Scrub, v: Value, depth: nat)
    ensures KeysKept(scrub, v, Redact(scrub, v, depth), depth)
    decreases v
  {
    hide Sensitive, UrlKey, UrlKept;
    if depth > MAX_DEPTH {
    } else {
      match v
      case Text(_) =>
      case Other(_) =>
      case List(items) =>
        forall i | 0 <= i < Kept(|items|)
          ensures KeysKept(scrub, items[i], Redact(scrub, items[i], depth + 1), depth + 1)
        {
          RedactKeepsKeys(scrub, items[i], depth + 1);
        }
      case Object(fields) =>
        forall i | 0 <= i < |fields|
          ensures KeysKept(scrub, fields[i].1, Redact(scrub, fields[i].1, depth + 1), depth + 1)
          ensures fields[i].1.Text? ==> UrlKept(scrub, fields[i].1.s, Text(StripUrlQuery(scrub, fields[i].1.s)))
        {
          RedactKeepsKeys(scrub, fields[i].1, depth + 1);
          if fields[i].1.Text? { StripKeepsUrl(scrub, fields[i].1.s); }
        }
    }
  }

  lemma StripKeepsUrl(scrub: Scrub, s: string)
    ensures UrlKept(scrub, s, Text(StripUrlQuery(scrub, s)))
  {
    BeforeMarkIsBare(s);
    var n := |BeforeMark(s)|;
    assert 0 <= n <= |s| && IsBare(s, n);
  }

  // ---------------------------------------------------------------- what needs no redaction

  /** Within the bounds: lists of at most fifty items, and beyond the depth bound nothing but the truncation
      mark; values that are judged by their key alone count at any depth. */
  predicate Fits(v: Value, depth: nat)
    decreases v
  {
    if depth > MAX_DEPTH then v == TRUNCATED
    else match v
      case Text(_) => true
      case Other(_) => true
      case List(items) => |items| <= MAX_ITEMS && forall i :: 0 <= i < |items| ==> Fits(items[i], depth + 1)
      case Object(fields) =>
        forall i :: 0 <= i < |fields| ==>
          Sensitive(fields[i].0) || (UrlKey(fields[i].0) && fields[i].1.Text?) || Fits(fields[i].1, depth + 1)
  }

  /** Redaction leaves a tree alone exactly when the tree is within the bounds and private already. */
  lemma {:induction false} UntouchedExactly(scrub: Scrub, v: Value, depth: nat)
    requires ScrubOk(scrub)
    ensures Redact(scrub, v, depth) == v <==> Fits(v, depth) && Private(scrub, v)
    decreases v
  {
    hide Sensitive, UrlKey;
    if depth > MAX_DEPTH {
    } else {
      match v
      case Text(_) =>
      case Other(_) =>
      case List(items) =>
        forall i | 0 <= i < |items|
          ensures Redact(scrub, items[i], depth + 1) == items[i]
                  <==> Fits(items[i], depth + 1) && Private(scrub, items[i])
        {
          UntouchedExactly(scrub, items[i], depth + 1);
        }
        UntouchedList(scrub, items, depth);
      case Object(fields) =>
        forall i | 0 <= i < |fields|
          ensures RedactField(scrub, fields[i].0, fields[i].1, depth + 1) == fields[i].1
                  <==> FitsField(fields[i].0, fields[i].1, depth + 1) && PrivateField(scrub, fields[i].0, fields[i].1)
        {
          UntouchedExactly(scrub, fields[i].1, depth + 1);
          UntouchedField(scrub, fields[i].0, fields[i].1, depth + 1);
        }
        UntouchedObject(scrub, fields, depth);
    }
  }

  predicate FitsField(key: string, v: Value, depth: nat) {
    Sensitive(key) || (UrlKey(key) && v.Text?) || Fits(v, depth)
  }

  lemma UntouchedField(scrub: Scrub, key: string, v: Value, depth: nat)
    requires ScrubOk(scrub)
    requires Redact(scrub, v, depth) == v <==> Fits(v, depth) && Private(scrub, v)
    ensures RedactField(scrub, key, v, depth) == v <==> FitsField(key, v, depth) && PrivateField(scrub, key, v)
  {
    hide Sensitive, UrlKey, Fits;
    if UrlKey(key) && v.Text? {
      BeforeMarkHasNone(v.s);
      assert NoMarks(scrub(BeforeMark(v.s)));
      assert scrub(scrub(BeforeMark(v.s))) == scrub(BeforeMark(v.s));
    }
  }

  lemma UntouchedList(scrub: Scrub, items: seq<Value>, depth: nat)
    requires depth <= MAX_DEPTH
    requires forall i :: 0 <= i < |items| ==>
               (Redact(scrub, items[i], depth + 1) == items[i]
                <==> Fits(items[i], depth + 1) && Private(scrub, items[i]))
    ensures Redact(scrub, List(items), depth) == List(items)
            <==> Fits(List(items), depth) && Private(scrub, List(items))
  {
    var r := Redact(scrub, List(items), depth);
    assert |r.items| == Kept(|items|);
    assert forall i :: 0 <= i < |r.items| ==> r.items[i] == Redact(scrub, items[i], depth + 1);
    if Fits(List(items), depth) && Private(scrub, List(items)) {
      assert r.items == items;
    }
    if r == List(items) {
      assert forall i :: 0 <= i < |items| ==> r.items[i] == items[i];
    }
  }

  lemma UntouchedObject(scrub: Scrub, fields: Fields, depth: nat)
    requires depth <= MAX_DEPTH
    requires forall i :: 0 <= i < |fields| ==>
               (RedactField(scrub, fields[i].0, fields[i].1, depth + 1) == fields[i].1
                <==> FitsField(fields[i].0, fields[i].1, depth + 1) && PrivateField(scrub, fields[i].0, fields[i].1))
    ensures Redact(scrub, Object(fields), depth) == Object(fields)
            <==> Fits(Object(fields), depth) && Private(scrub, Object(fields))
  {
    hide Sensitive, UrlKey, RedactField, PrivateField;
    var r := Redact(scrub, Object(fields), depth);
    assert forall i :: 0 <= i < |fields| ==>
                         r.fields[i] == (fields[i].0, RedactField(scrub, fields[i].0, fields[i].1, depth + 1));
    if Fits(Object(fields), depth) && Private(scrub, Object(fields)) {
      assert forall i :: 0 <= i < |fields| ==> FitsField(fields[i].0, fields[i].1, depth + 1);
      assert r.fields == fields;
    }
    if r == Object(fields) {
      assert forall i :: 0 <= i < |fields| ==>
                           r.fields[i] == fields[i] && FitsField(fields[i].0, fields[i].1, depth + 1);
    }
  }

  /** A tree nested at most as deep as the bound fits. */
  lemma {:induction false} ShallowFits(v: Value, depth: nat)
    requires depth <= MAX_DEPTH && Bounded(v, MAX_DEPTH - depth)
    ensures Fits(v, depth)
    decreases v
  {
    hide Sensitive, UrlKey;
    match v
    case Text(_) =>
    case Other(_) =>
    case List(items) =>
      forall i | 0 <= i < |items| ensures Fits(items[i], depth + 1) { ShallowFits(items[i], depth + 1); }
    case Object(fields) =>
      forall i | 0 <= i < |fields| ensures Fits(fields[i].1, depth + 1) { ShallowFits(fields[i].1, depth + 1); }
  }

  function InLists(v: Value, levels: nat): Value {
    if levels == 0 then v else List([InLists(v, levels - 1)])
  }

  lemma {:induction false} InListsIs(scrub: Scrub, v: Value, levels: nat)
    requires levels <= MAX_DEPTH + 1 && v.Other?
    ensures Bounded(InLists(v, levels), levels) && Private(scrub, InLists(v, levels))
    ensures !Fits(InLists(v, levels), MAX_DEPTH + 1 - levels)
    ensures levels == 0 || InLists(v, levels).List?
  {
    if levels == 0 {
    } else {
      InListsIs(scrub, v, levels - 1);
      assert InLists(v, levels).items[0] == InLists(v, levels - 1);
    }
  }

  /** A number inside eight lists stays; inside nine, though private and no deeper than the bound on results,
      it is truncated. */
  lemma NinthLevelIsTruncated(scrub: Scrub, tag: int)
    requires ScrubOk(scrub)
    ensures Redact(scrub, InLists(Other(tag), 8), 0) == InLists(Other(tag), 8)
    ensures var v := InLists(Other(tag), 9); Bounded(v, 9) && Private(scrub, v) && Redact(scrub, v, 0) != v
  {
    hide Redact, Fits, InLists, Bounded, Private;
    InListsIs(scrub, Other(tag), 9);
    UntouchedExactly(scrub, InLists(Other(tag), 9), 0);
    InListsIs(scrub, Other(tag), 8);
    ShallowFits(InLists(Other(tag), 8), 0);
    UntouchedExactly(scrub, InLists(Other(tag), 8), 0);
  }

  /** Of a list at most the first fifty items are kept, each redacted. */
  lemma FiftyItemsAreKept(scrub: Scrub, items: seq<Value>)
    ensures var r := Redact(scrub, List(items), 0);
            && r.List? && |r.items| == (if |items| > 50 then 50 else |items|)
            && forall i :: 0 <= i < |r.items| ==> r.items[i] == Redact(scrub, items[i], 1)
  {
  }

  // ---------------------------------------------------------------- which keys are sensitive

  function LowerChar(c: char): char {
    if 'A' <= c <= 'Z' then (c as int + 32) as char else c
  }

  lemma {:induction false} LowerIs(s: string)
    ensures |Lower(s)| == |s| && forall i :: 0 <= i < |s| ==> Lower(s)[i] == LowerChar(s[i])
  {
    if s == [] {
    } else {
      LowerIs(s[1..]);
    }
  }

  /** The word stands in the key from `i` on, in any letter case. */
  predicate StandsAt(word: string, key: string, i: int) {
    0 <= i <= |key| - |word| && forall j :: 0 <= j < |word| ==> LowerChar(key[i + j]) == word[j]
  }

  /** A key mentions one of the words exactly when the word stands somewhere in it, in any letter case. */
  lemma MentionsExactly(key: string, words: seq<string>)
    ensures Mentions(key, words) <==> exists w, i :: 0 <= w < |words| && 0 <= i <= |key| && StandsAt(words[w], key, i)
  {
    LowerIs(key);
    var text := Lower(key);
    forall w, i: int | 0 <= w < |words| && 0 <= i <= |key|
      ensures OccursAt(words[w], text, i) <==> StandsAt(words[w], key, i)
    {
      if 0 <= i <= |key| - |words[w]| {
        var part := text[i..i + |words[w]|];
        assert forall j :: 0 <= j < |part| ==> part[j] == LowerChar(key[i + j]);
      }
    }
    if Mentions(key, words) {
      var w :| 0 <= w < |words| && Occurs(words[w], text);
      var i :| 0 <= i <= |text| && OccursAt(words[w], text, i);
      assert StandsAt(words[w], key, i);
    }
    if w, i :| 0 <= w < |words| && 0 <= i <= |key| && StandsAt(words[w], key, i) {
      assert OccursAt(words[w], text, i);
      assert Occurs(words[w], text);
    }
  }

  lemma WordsNotInLevel(w: nat)
    ensures w < |SENSITIVE_WORDS| ==>
              var word := SENSITIVE_WORDS[w]; |word| >= 4 && word[0] != 'l' && (|word| == 4 ==> word[0] != 'e')
    ensures w < |URL_WORDS| ==>
              var word := URL_WORDS[w]; |word| >= 3 && word[0] != 'l' && word[0] != 'e' && word[0] != 'v'
  {
  }

  lemma SomeSensitiveWords()
    ensures |SENSITIVE_WORDS| > 5 && SENSITIVE_WORDS[0] == "authorization" && SENSITIVE_WORDS[5] == "email"
    ensures |URL_WORDS| > 0 && URL_WORDS[0] == "url"
  {
  }

  /** "Authorization" and "userEmail" are sensitive, "redirectUrl" holds a URL, and "level" is neither. */
  lemma SomeKeys()
    ensures Sensitive("Authorization") && Sensitive("userEmail") && UrlKey("redirectUrl")
    ensures !Sensitive("level") && !UrlKey("level")
  {
    hide SENSITIVE_WORDS, URL_WORDS, Mentions;
    SomeSensitiveWords();
    MentionsExactly("Authorization", SENSITIVE_WORDS);
    assert StandsAt(SENSITIVE_WORDS[0], "Authorization", 0);
    MentionsExactly("userEmail", SENSITIVE_WORDS);
    assert StandsAt(SENSITIVE_WORDS[5], "userEmail", 4);
    MentionsExactly("redirectUrl", URL_WORDS);
    assert StandsAt(URL_WORDS[0], "redirectUrl", 8);
    LevelIsPlain();
  }

  lemma WordsNotInRequest(w: nat)
    ensures w < |SENSITIVE_WORDS| ==>
              var word := SENSITIVE_WORDS[w];
              |word| >= 4 && word[0] !in {'r', 'q', 'u'} && (word[0] == 'e' ==> word[1] != 'q')
  {
  }

  lemma RequestIsPlain()
    ensures !Sensitive("request")
  {
    hide SENSITIVE_WORDS, Mentions;
    MentionsExactly("request", SENSITIVE_WORDS);
    forall w: nat, i: int | w < |SENSITIVE_WORDS| ensures !StandsAt(SENSITIVE_WORDS[w], "request", i) {
      WordsNotInRequest(w);
    }
  }

  lemma LevelIsPlain()
    ensures !Sensitive("level") && !UrlKey("level")
  {
    hide SENSITIVE_WORDS, URL_WORDS, Mentions;
    MentionsExactly("level", SENSITIVE_WORDS);
    MentionsExactly("level", URL_WORDS);
    forall w: nat, i: int | w < |SENSITIVE_WORDS| ensures !StandsAt(SENSITIVE_WORDS[w], "level", i) {
      WordsNotInLevel(w);
    }
    forall w: nat, i: int | w < |URL_WORDS| ensures !StandsAt(URL_WORDS[w], "level", i) {
      WordsNotInLevel(w);
    }
  }

  // ---------------------------------------------------------------- idempotence

  lemma {:induction false} RedactTwice(scrub: Scrub, v: Value, depth: nat)
    requires ScrubOk(scrub)
    ensures Redact(scrub, Redact(scrub, v, depth), depth) == Redact(scrub, v, depth)
    decreases v
  {
    hide Sensitive, UrlKey, NoMarks;
    if depth > MAX_DEPTH {
    } else {
      var r := Redact(scrub, v, depth);
      match v
      case Text(_) =>
      case Other(_) =>
      case List(items) =>
        forall i | 0 <= i < Kept(|items|) ensures Redact(scrub, r.items[i], depth + 1) == r.items[i] {
          RedactTwice(scrub, items[i], depth + 1);
        }
        assert Redact(scrub, r, depth).items == r.items;
      case Object(fields) =>
        forall i | 0 <= i < |fields|
          ensures RedactField(scrub, r.fields[i].0, r.fields[i].1, depth + 1) == r.fields[i].1
        {
          RedactTwice(scrub, fields[i].1, depth + 1);
          RedactFieldTwice(scrub, fields[i].0, fields[i].1, depth + 1);
        }
        assert Redact(scrub, r, depth).fields == r.fields;
    }
  }

  lemma RedactFieldTwice(scrub: Scrub, key: string, v: Value, depth: nat)
    requires ScrubOk(scrub) && Redact(scrub, Redact(scrub, v, depth), depth) == Redact(scrub, v, depth)
    ensures RedactField(scrub, key, RedactField(scrub, key, v, depth), depth) == RedactField(scrub, key, v, depth)
  {
    hide Sensitive, UrlKey, NoMarks;
    if v.Text? {
      BeforeMarkHasNone(v.s);
      BeforeMarkHasNone(scrub(BeforeMark(v.s)));
    } else if depth > MAX_DEPTH {
      BeforeMarkHasNone(TRUNCATED.s);
      TruncationHasNoMarks();
    }
  }

  // ---------------------------------------------------------------- deleting and assigning

  predicate HasKey(fields: Fields, key: string) {
    exists i :: 0 <= i < |fields| && fields[i].0 == key
  }

  lemma {:induction false} DeleteMeans(fields: Fields, key: string)
    ensures forall f :: f in Delete(fields, key) <==> f in fields && f.0 != key
    ensures !HasKey(Delete(fields, key), key)
    ensures !HasKey(fields, key) ==> Delete(fields, key) == fields
  {
    if fields == [] {
    } else {
      DeleteMeans(fields[1..], key);
      assert fields == [fields[0]] + fields[1..];
      if !HasKey(fields, key) {
        assert forall i :: 0 <= i < |fields[1..]| ==> fields[1..][i] == fields[i + 1];
      }
      var rest := Delete(fields, key);
      forall i | 0 <= i < |rest| ensures rest[i].0 != key { assert rest[i] in rest; }
    }
  }

  lemma {:induction false} PutMeans(fields: Fields, key: string, v: Value)
    ensures |Put(fields, key, v)| == |fields|
    ensures forall i :: 0 <= i < |fields| ==>
              Put(fields, key, v)[i] == (fields[i].0, if fields[i].0 == key then v else fields[i].1)
    ensures Lookup(fields, key).Some? ==> Lookup(Put(fields, key, v), key) == Some(v)
    ensures Lookup(fields, key).None? ==> Put(fields, key, v) == fields
  {
    if fields == [] {
    } else {
      PutMeans(fields[1..], key, v);
      assert fields == [(fields[0].0, fields[0].1)] + fields[1..];
      assert Put(fields, key, v)[1..] == Put(fields[1..], key, v);
    }
  }

  lemma {:induction false} LookupMeans(fields: Fields, key: string)
    ensures Lookup(fields, key).Some? <==> HasKey(fields, key)
    ensures Lookup(fields, key).Some? ==> (key, Lookup(fields, key).value) in fields
  {
    if fields == [] {
    } else {
      LookupMeans(fields[1..], key);
      if i :| 0 <= i < |fields| && fields[i].0 == key {
        if i > 0 { assert fields[1..][i - 1] == fields[i]; }
      }
      if HasKey(fields[1..], key) {
        var j :| 0 <= j < |fields[1..]| && fields[1..][j].0 == key;
        assert fields[j + 1].0 == key;
      }
    }
  }

  // ---------------------------------------------------------------- the event, twice

  ghost predicate Fixed(scrub: Scrub, fields: Fields, depth: nat) {
    forall f :: f in fields ==> RedactField(scrub, f.0, f.1, depth) == f.1
  }

  lemma FixedObject(scrub: Scrub, fields: Fields, depth: nat)
    requires Fixed(scrub, fields, depth + 1) && depth <= MAX_DEPTH
    ensures Redact(scrub, Object(fields), depth) == Object(fields)
  {
    hide RedactField;
    var r := Redact(scrub, Object(fields), depth);
    forall i | 0 <= i < |fields| ensures r.fields[i] == fields[i] { assert fields[i] in fields; }
    assert r.fields == fields;
  }

  lemma RedactedIsFixed(scrub: Scrub, v: Value, depth: nat)
    requires ScrubOk(scrub) && depth <= MAX_DEPTH && Redact(scrub, v, depth).Object?
    ensures Fixed(scrub, Redact(scrub, v, depth).fields, depth + 1)
  {
    hide RedactField;
    var r := Redact(scrub, v, depth);
    RedactTwice(scrub, v, depth);
    forall f | f in r.fields ensures RedactField(scrub, f.0, f.1, depth + 1) == f.1 {
      var i :| 0 <= i < |r.fields| && r.fields[i] == f;
      assert Redact(scrub, r, depth).fields[i] == f;
    }
  }

  lemma UrlIsUrlKey()
    ensures UrlKey("url")
  {
    var text := Lower("url");
    assert text == "url" by { LowerUrl(); }
    assert OccursAt("url", text, 0);
    assert Occurs("url", text);
    assert URL_WORDS[0] == "url";
  }

  lemma LowerUrl()
    ensures Lower("url") == "url"
  {
    assert "url"[1..] == "rl" && "rl"[1..] == "l" && "l"[1..] == "";
    assert Lower("l") == "l";
    assert Lower("rl") == "rl";
  }

  lemma {:induction false} BeforeQuestionKeeps(s: string)
    ensures NoMarks(s) ==> BeforeQuestion(s) == s
    ensures BeforeQuestion(BeforeQuestion(s)) == BeforeQuestion(s)
  {
    if s == [] || s[0] == '?' {
    } else {
      BeforeQuestionKeeps(s[1..]);
      assert s == [s[0]] + s[1..];
      assert BeforeQuestion(s)[1..] == BeforeQuestion(s[1..]);
      if NoMarks(s) { assert NoMarks(s[1..]); }
    }
  }

  /** The URL of a redacted request has no query left to cut. */
  lemma FixedUrlHasNoMarks(scrub: Scrub, v: Value, depth: nat)
    requires ScrubOk(scrub) && v.Text? && RedactField(scrub, "url", v, depth) == v
    ensures NoMarks(v.s)
  {
    hide Sensitive, UrlKey, NoMarks;
    UrlIsUrlKey();
    BeforeMarkHasNone(v.s);
    RedactionHasNoMarks();
  }

  lemma RedactionHasNoMarks()
    ensures NoMarks(REDACTED.s)
  {
  }

  predicate UniqueKeys(fields: Fields) {
    fields == [] || (!HasKey(fields[1..], fields[0].0) && UniqueKeys(fields[1..]))
  }

  lemma {:induction false} UniqueAfterDelete(fields: Fields, key: string)
    requires UniqueKeys(fields)
    ensures UniqueKeys(Delete(fields, key))
  {
    if fields == [] {
    } else {
      UniqueAfterDelete(fields[1..], key);
      var rest := Delete(fields[1..], key);
      DeleteMeans(fields[1..], key);
      forall i | 0 <= i < |rest| ensures rest[i].0 != fields[0].0 { assert rest[i] in rest; }
      assert ([fields[0]] + rest)[1..] == rest && [] + rest == rest;
    }
  }

  /** Assigning a property the value it has changes nothing. */
  lemma {:induction false} PutSame(fields: Fields, key: string)
    requires UniqueKeys(fields) && Lookup(fields, key).Some?
    ensures Put(fields, key, Lookup(fields, key).value) == fields
  {
    if fields[0].0 == key {
      LookupMeans(fields[1..], key);
      PutMeans(fields[1..], key, fields[0].1);
    } else {
      PutSame(fields[1..], key);
    }
    assert fields == [(fields[0].0, fields[0].1)] + fields[1..];
  }

  /** A request without body, cookies and headers. */
  function BareRequest(fields: Fields): Fields {
    Delete(Delete(Delete(fields, "data"), "cookies"), "headers")
  }

  lemma BareRequestMeans(fields: Fields)
    ensures var bare := BareRequest(fields);
            && (forall f :: f in bare ==> f in fields)
            && !HasKey(bare, "data") && !HasKey(bare, "cookies") && !HasKey(bare, "headers")
            && BareRequest(bare) == bare
            && (UniqueKeys(fields) ==> UniqueKeys(bare))
  {
    hide Delete;
    var a := Delete(fields, "data");
    var b := Delete(a, "cookies");
    var bare := BareRequest(fields);
    DeleteMeans(fields, "data");
    DeleteMeans(a, "cookies");
    DeleteMeans(b, "headers");
    forall i | 0 <= i < |bare| ensures bare[i].0 != "data" && bare[i].0 != "cookies" {
      assert bare[i] in bare && bare[i] in b && bare[i] in a;
    }
    DeleteMeans(bare, "data");
    DeleteMeans(bare, "cookies");
    DeleteMeans(bare, "headers");
    if UniqueKeys(fields) {
      UniqueAfterDelete(fields, "data");
      UniqueAfterDelete(a, "cookies");
      UniqueAfterDelete(b, "headers");
    }
  }

  /** Redaction has already cut the query, so cutting it again changes nothing. */
  lemma CutChangesNothing(scrub: Scrub, bare: Fields, depth: nat)
    requires ScrubOk(scrub) && Fixed(scrub, bare, depth) && UniqueKeys(bare)
    ensures var url := Lookup(bare, "url");
            url.Some? && url.value.Text? ==> Put(bare, "url", Text(BeforeQuestion(url.value.s))) == bare
  {
    hide ScrubOk, NoMarks, Lookup, Put, UniqueKeys;
    LookupMeans(bare, "url");
    var url := Lookup(bare, "url");
    if url.Some? && url.value.Text? {
      FixedUrlHasNoMarks(scrub, url.value, depth);
      BeforeQuestionKeeps(url.value.s);
      PutSame(bare, "url");
    }
  }

  lemma SafeRequestFixed(scrub: Scrub, fields: Fields, depth: nat)
    requires ScrubOk(scrub) && Fixed(scrub, fields, depth) && UniqueKeys(fields)
    ensures SafeRequest(fields) == BareRequest(fields)
    ensures Fixed(scrub, SafeRequest(fields), depth)
    ensures SafeRequest(SafeRequest(fields)) == SafeRequest(fields)
  {
    hide RedactField, ScrubOk, Lookup, Put, UniqueKeys, HasKey;
    var bare := BareRequest(fields);
    BareRequestMeans(fields);
    CutChangesNothing(scrub, bare, depth);
  }

  /** Objects, at every level, hold each key once. */
  predicate WellKeyed(v: Value) {
    match v
    case Text(_) => true
    case Other(_) => true
    case List(items) => forall i :: 0 <= i < |items| ==> WellKeyed(items[i])
    case Object(fields) => UniqueKeys(fields) && forall i :: 0 <= i < |fields| ==> WellKeyed(fields[i].1)
  }

  lemma {:induction false} SameKeysUnique(a: Fields, b: Fields)
    requires UniqueKeys(a) && |a| == |b| && forall i :: 0 <= i < |a| ==> a[i].0 == b[i].0
    ensures UniqueKeys(b)
  {
    if a == [] {
    } else {
      SameKeysUnique(a[1..], b[1..]);
      forall i | 0 <= i < |b[1..]| ensures b[1..][i].0 != b[0].0 { assert a[1..][i].0 == b[1..][i].0; }
    }
  }

  lemma {:induction false} RedactKeepsWellKeyed(scrub: Scrub, v: Value, depth: nat)
    requires WellKeyed(v)
    ensures WellKeyed(Redact(scrub, v, depth))
    decreases v
  {
    hide Sensitive, UrlKey, UniqueKeys;
    if depth > MAX_DEPTH {
    } else {
      match v
      case Text(_) =>
      case Other(_) =>
      case List(items) =>
        forall i | 0 <= i < Kept(|items|) ensures WellKeyed(Redact(scrub, items[i], depth + 1)) {
          RedactKeepsWellKeyed(scrub, items[i], depth + 1);
        }
      case Object(fields) =>
        SameKeysUnique(fields, Redact(scrub, v, depth).fields);
        forall i | 0 <= i < |fields| ensures WellKeyed(RedactField(scrub, fields[i].0, fields[i].1, depth + 1)) {
          RedactKeepsWellKeyed(scrub, fields[i].1, depth + 1);
        }
    }
  }

  /** What the field deletions leave of the redacted top level. */
  lemma SafeFieldsFixed(scrub: Scrub, fields: Fields)
    requires ScrubOk(scrub) && Fixed(scrub, fields, 1) && UniqueKeys(fields)
    requires forall f :: f in fields && f.1.Object? ==> WellKeyed(f.1)
    ensures Fixed(scrub, SafeFields(fields), 1)
    ensures SafeFields(SafeFields(fields)) == SafeFields(fields)
    ensures !HasKey(SafeFields(fields), "user")
  {
    hide ScrubOk, Delete, Put, Lookup, SafeRequest, UniqueKeys, RedactField;
    var known := Delete(fields, "user");
    DeleteMeans(fields, "user");
    LookupMeans(known, "request");
    var request := Lookup(known, "request");
    var safe := SafeFields(fields);
    if request.Some? && request.value.Object? {
      var inner := request.value.fields;
      RequestFixed(scrub, inner);
      var v := Object(SafeRequest(inner));
      PutMeans(known, "request", v);
      forall f | f in safe ensures RedactField(scrub, f.0, f.1, 1) == f.1 {
        var i :| 0 <= i < |safe| && safe[i] == f;
        assert known[i] in known;
        if f.0 == "request" { RequestFieldFixed(scrub, inner, v); }
      }
      forall i | 0 <= i < |safe| ensures safe[i].0 != "user" { assert known[i].0 != "user"; }
      DeleteMeans(safe, "user");
      PutMeans(safe, "request", v);
      assert Put(safe, "request", v) == safe;
    } else {
      DeleteMeans(known, "user");
    }
  }

  lemma RequestFixed(scrub: Scrub, inner: Fields)
    requires ScrubOk(scrub) && WellKeyed(Object(inner))
    requires RedactField(scrub, "request", Object(inner), 1) == Object(inner)
    ensures Fixed(scrub, inner, 2) && UniqueKeys(inner)
    ensures Fixed(scrub, SafeRequest(inner), 2) && SafeRequest(SafeRequest(inner)) == SafeRequest(inner)
  {
    hide ScrubOk, SafeRequest, UniqueKeys, Sensitive, UrlKey;
    assert Redact(scrub, Object(inner), 1) == Object(inner);
    forall f | f in inner ensures RedactField(scrub, f.0, f.1, 2) == f.1 {
      var i :| 0 <= i < |inner| && inner[i] == f;
      assert Redact(scrub, Object(inner), 1).fields[i] == f;
    }
    SafeRequestFixed(scrub, inner, 2);
  }

  lemma RequestFieldFixed(scrub: Scrub, inner: Fields, v: Value)
    requires RedactField(scrub, "request", Object(inner), 1) == Object(inner)
    requires v.Object? && Fixed(scrub, v.fields, 2)
    ensures RedactField(scrub, "request", v, 1) == v
  {
    hide Sensitive, UrlKey;
    FixedObject(scrub, v.fields, 1);
  }

  /** Scrubbing a scrubbed event changes nothing. */
  lemma ScrubbingIsIdempotent(scrub: Scrub, event: Value)
    requires ScrubOk(scrub) && WellKeyed(event)
    ensures ScrubEvent(scrub, ScrubEvent(scrub, event)) == ScrubEvent(scrub, event)
  {
    hide ScrubOk, SafeFields, Redact;
    var r := Redact(scrub, event, 0);
    RedactTwice(scrub, event, 0);
    if r.Object? {
      RedactedIsFixed(scrub, event, 0);
      RedactKeepsWellKeyed(scrub, event, 0);
      SafeFieldsFixed(scrub, r.fields);
      FixedObject(scrub, SafeFields(r.fields), 0);
    }
  }

  /** A scrubbed event is bounded and private throughout, has no user, and its request, if it has
      one, has no body, cookies, headers or query. */
  lemma ScrubbedEventIsPrivate(scrub: Scrub, event: Value)
    requires ScrubOk(scrub) && WellKeyed(event)
    ensures Bounded(ScrubEvent(scrub, event), MAX_DEPTH + 1) && Private(scrub, ScrubEvent(scrub, event))
    ensures ScrubEvent(scrub, event).Object? ==>
              var fields := ScrubEvent(scrub, event).fields;
              && !HasKey(fields, "user")
              && (var request := Lookup(fields, "request");
                  request.Some? && request.value.Object? ==>
                    var inner := request.value.fields;
                    && !HasKey(inner, "data") && !HasKey(inner, "cookies") && !HasKey(inner, "headers")
                    && (var url := Lookup(inner, "url"); url.Some? && url.value.Text? ==> NoMarks(url.value.s)))
  {
    hide ScrubOk, SafeFields, Redact, Private, Bounded, Lookup, HasKey;
    var r := Redact(scrub, event, 0);
    ScrubbingIsIdempotent(scrub, event);
    var e := ScrubEvent(scrub, event);
    RedactedIsBoundedAndPrivate(scrub, event, 0);
    if r.Object? {
      RedactedIsFixed(scrub, event, 0);
      RedactKeepsWellKeyed(scrub, event, 0);
      SafeFieldsFixed(scrub, r.fields);
      FixedObject(scrub, e.fields, 0);
      RedactedIsBoundedAndPrivate(scrub, e, 0);
      RequestStripped(scrub, r.fields);
    }
  }

  lemma RequestStripped(scrub: Scrub, fields: Fields)
    requires ScrubOk(scrub) && Fixed(scrub, fields, 1) && UniqueKeys(fields)
    requires forall f :: f in fields && f.1.Object? ==> WellKeyed(f.1)
    ensures var request := Lookup(SafeFields(fields), "request");
            request.Some? && request.value.Object? ==>
              var inner := request.value.fields;
              && !HasKey(inner, "data") && !HasKey(inner, "cookies") && !HasKey(inner, "headers")
              && (var url := Lookup(inner, "url"); url.Some? && url.value.Text? ==> NoMarks(url.value.s))
  {
    hide ScrubOk, Delete, Put, Lookup, SafeRequest, UniqueKeys, RedactField, HasKey, NoMarks, BareRequest;
    var known := Delete(fields, "user");
    DeleteMeans(fields, "user");
    LookupMeans(known, "request");
    var request := Lookup(known, "request");
    if request.Some? && request.value.Object? {
      var inner := request.value.fields;
      RequestFixed(scrub, inner);
      SafeRequestFixed(scrub, inner, 2);
      BareRequestMeans(inner);
      var safe := SafeRequest(inner);
      PutMeans(known, "request", Object(safe));
      LookupMeans(safe, "url");
      var url := Lookup(safe, "url");
      if url.Some? && url.value.Text? { FixedUrlHasNoMarks(scrub, url.value, 2); }
    }
  }

  // ---------------------------------------------------------------- what cannot be told from the output

  /** The same tree but for what redaction removes: values of sensitive fields, queries and
      fragments of URLs, list items past the fiftieth, and everything beyond the depth bound. */
  predicate Alike(a: Value, b: Value, depth: nat)
    decreases a, 0
  {
    depth > MAX_DEPTH ||
    match a
    case Text(_) => a == b
    case Other(_) => a == b
    case List(items) =>
      && b.List? && Kept(|items|) == Kept(|b.items|)
      && forall i :: 0 <= i < Kept(|items|) ==> Alike(items[i], b.items[i], depth + 1)
    case Object(fields) =>
      && b.Object? && |fields| == |b.fields|
      && forall i :: 0 <= i < |fields| ==>
           fields[i].0 == b.fields[i].0 && AlikeField(fields[i].0, fields[i].1, b.fields[i].1, depth + 1)
  }

  predicate AlikeField(key: string, a: Value, b: Value, depth: nat)
    decreases a, 1
  {
    || Sensitive(key)
    || (if UrlKey(key) && (a.Text? || b.Text?) then a.Text? && b.Text? && BeforeMark(a.s) == BeforeMark(b.s)
        else Alike(a, b, depth))
  }

  lemma {:induction false} AlikeRedactsAlike(scrub: Scrub, a: Value, b: Value, depth: nat)
    requires Alike(a, b, depth)
    ensures Redact(scrub, a, depth) == Redact(scrub, b, depth)
    decreases a
  {
    hide Sensitive, UrlKey;
    if depth > MAX_DEPTH {
    } else {
      match a
      case Text(_) =>
      case Other(_) =>
      case List(items) =>
        forall i | 0 <= i < Kept(|items|)
          ensures Redact(scrub, items[i], depth + 1) == Redact(scrub, b.items[i], depth + 1)
        {
          AlikeRedactsAlike(scrub, items[i], b.items[i], depth + 1);
        }
        assert Redact(scrub, a, depth).items == Redact(scrub, b, depth).items;
      case Object(fields) =>
        forall i | 0 <= i < |fields|
          ensures RedactField(scrub, fields[i].0, fields[i].1, depth + 1)
                  == RedactField(scrub, fields[i].0, b.fields[i].1, depth + 1)
        {
          if Alike(fields[i].1, b.fields[i].1, depth + 1) {
            AlikeRedactsAlike(scrub, fields[i].1, b.fields[i].1, depth + 1);
          }
        }
        assert Redact(scrub, a, depth).fields == Redact(scrub, b, depth).fields;
    }
  }

  /** The fields of an object, redacted. */
  function RedactFields(scrub: Scrub, fields: Fields, depth: nat): Fields {
    seq(|fields|, i requires 0 <= i < |fields| => (fields[i].0, RedactField(scrub, fields[i].0, fields[i].1, depth)))
  }

  lemma {:induction false} DeleteCommutes(scrub: Scrub, fields: Fields, depth: nat, key: string)
    ensures Delete(RedactFields(scrub, fields, depth), key) == RedactFields(scrub, Delete(fields, key), depth)
  {
    hide RedactField;
    if fields == [] {
    } else {
      var first, rest := fields[0], fields[1..];
      DeleteCommutes(scrub, rest, depth, key);
      var r := RedactFields(scrub, fields, depth);
      assert r[1..] == RedactFields(scrub, rest, depth);
      if first.0 != key {
        assert RedactFields(scrub, [first] + Delete(rest, key), depth)
               == [(first.0, RedactField(scrub, first.0, first.1, depth))]
                  + RedactFields(scrub, Delete(rest, key), depth);
      } else {
        assert Delete(r, key) == [] + Delete(r[1..], key) == Delete(r[1..], key);
        assert Delete(fields, key) == [] + Delete(rest, key) == Delete(rest, key);
      }
    }
  }

  lemma BareCommutes(scrub: Scrub, fields: Fields, depth: nat)
    ensures BareRequest(RedactFields(scrub, fields, depth)) == RedactFields(scrub, BareRequest(fields), depth)
  {
    hide RedactFields, Delete;
    var a := Delete(fields, "data");
    var b := Delete(a, "cookies");
    DeleteCommutes(scrub, fields, depth, "data");
    DeleteCommutes(scrub, a, depth, "cookies");
    DeleteCommutes(scrub, b, depth, "headers");
  }

  predicate AlikeFields(a: Fields, b: Fields, depth: nat) {
    && |a| == |b|
    && forall i :: 0 <= i < |a| ==> a[i].0 == b[i].0 && AlikeField(a[i].0, a[i].1, b[i].1, depth)
  }

  /** Two requests that differ at most in body, cookies, headers and in what redaction removes. */
  predicate AlikeRequests(a: Value, b: Value) {
    a.Object? && b.Object? && AlikeFields(BareRequest(a.fields), BareRequest(b.fields), 2)
  }

  /** Two events that differ at most in user, request body, cookies and headers, and in what
      redaction removes. */
  predicate AlikeEvents(a: Value, b: Value) {
    && a.Object? && b.Object?
    && var fa, fb := Delete(a.fields, "user"), Delete(b.fields, "user");
       && |fa| == |fb|
       && forall i :: 0 <= i < |fa| ==>
            && fa[i].0 == fb[i].0
            && (AlikeField(fa[i].0, fa[i].1, fb[i].1, 1) || (fa[i].0 == "request" && AlikeRequests(fa[i].1, fb[i].1)))
  }

  lemma AlikeFieldsRedactAlike(scrub: Scrub, a: Fields, b: Fields, depth: nat)
    requires AlikeFields(a, b, depth)
    ensures RedactFields(scrub, a, depth) == RedactFields(scrub, b, depth)
  {
    hide Sensitive, UrlKey;
    forall i | 0 <= i < |a|
      ensures RedactField(scrub, a[i].0, a[i].1, depth) == RedactField(scrub, a[i].0, b[i].1, depth)
    {
      AlikeFieldRedactsAlike(scrub, a[i].0, a[i].1, b[i].1, depth);
    }
    assert RedactFields(scrub, a, depth) == RedactFields(scrub, b, depth);
  }

  lemma AlikeFieldRedactsAlike(scrub: Scrub, key: string, a: Value, b: Value, depth: nat)
    requires AlikeField(key, a, b, depth)
    ensures RedactField(scrub, key, a, depth) == RedactField(scrub, key, b, depth)
  {
    hide Sensitive, UrlKey;
    if Alike(a, b, depth) { AlikeRedactsAlike(scrub, a, b, depth); }
  }

  /** A redacted request after its deletions is determined by what alike requests share. */
  lemma AlikeRequestsLookAlike(scrub: Scrub, a: Value, b: Value)
    requires AlikeRequests(a, b)
    ensures var ra, rb := RedactField(scrub, "request", a, 1), RedactField(scrub, "request", b, 1);
            || ra == rb
            || (ra.Object? && rb.Object? && SafeRequest(ra.fields) == SafeRequest(rb.fields))
  {
    hide UrlKey, Delete, RedactFields, AlikeFields, BareRequest;
    if !Sensitive("request") {
      var ra, rb := Redact(scrub, a, 1), Redact(scrub, b, 1);
      assert ra.fields == RedactFields(scrub, a.fields, 2) by { RedactObject(scrub, a, 1); }
      assert rb.fields == RedactFields(scrub, b.fields, 2) by { RedactObject(scrub, b, 1); }
      BareCommutes(scrub, a.fields, 2);
      BareCommutes(scrub, b.fields, 2);
      AlikeFieldsRedactAlike(scrub, BareRequest(a.fields), BareRequest(b.fields), 2);
      SafeIsOfBare(ra.fields);
      SafeIsOfBare(rb.fields);
    }
  }

  lemma RedactObject(scrub: Scrub, v: Value, depth: nat)
    requires v.Object? && depth <= MAX_DEPTH
    ensures Redact(scrub, v, depth) == Object(RedactFields(scrub, v.fields, depth + 1))
  {
    hide RedactField;
    assert Redact(scrub, v, depth).fields == RedactFields(scrub, v.fields, depth + 1);
  }

  function CutUrl(bare: Fields): Fields {
    var url := Lookup(bare, "url");
    if url.Some? && url.value.Text? then Put(bare, "url", Text(BeforeQuestion(url.value.s))) else bare
  }

  lemma SafeIsOfBare(fields: Fields)
    ensures SafeRequest(fields) == CutUrl(BareRequest(fields))
  {
  }

  /** Alike top levels stay equal, or differ at one request that the assignment then replaces. */
  lemma {:induction false} AlikeTopLevels(a: Fields, b: Fields)
    requires |a| == |b|
    requires UniqueKeys(a) && UniqueKeys(b)
    requires forall i :: 0 <= i < |a| ==>
               && a[i].0 == b[i].0
               && (a[i].1 == b[i].1
                   || (a[i].0 == "request" && a[i].1.Object? && b[i].1.Object?
                       && SafeRequest(a[i].1.fields) == SafeRequest(b[i].1.fields)))
    ensures Lookup(a, "request").Some? <==> Lookup(b, "request").Some?
    ensures Lookup(a, "request").Some? ==>
              var va, vb := Lookup(a, "request").value, Lookup(b, "request").value;
              || (va == vb && a == b)
              || (va.Object? && vb.Object? && SafeRequest(va.fields) == SafeRequest(vb.fields)
                  && forall v :: Put(a, "request", v) == Put(b, "request", v))
    ensures Lookup(a, "request").None? ==> a == b
  {
    hide SafeRequest;
    if a == [] {
    } else {
      AlikeTopLevels(a[1..], b[1..]);
      assert a == [a[0]] + a[1..] && b == [b[0]] + b[1..];
      if a[0].0 == "request" {
        LookupMeans(a[1..], "request");
        LookupMeans(b[1..], "request");
        assert a[1..] == b[1..];
      }
      if a != b && Lookup(a, "request").Some? {
        forall v ensures Put(a, "request", v) == Put(b, "request", v) {
          assert Put(a[1..], "request", v) == Put(b[1..], "request", v);
        }
      }
    }
  }

  /** Nothing that redaction is there to remove can be told from a scrubbed event: alike events
      scrub to the same one. */
  lemma ScrubHidesSecrets(scrub: Scrub, a: Value, b: Value)
    requires WellKeyed(a) && WellKeyed(b) && AlikeEvents(a, b)
    ensures ScrubEvent(scrub, a) == ScrubEvent(scrub, b)
  {
    hide UrlKey, Sensitive, Delete, Put, Lookup, UniqueKeys, RedactField, SafeRequest, AlikeField, AlikeRequests;
    var fa, fb := Delete(a.fields, "user"), Delete(b.fields, "user");
    RedactObject(scrub, a, 0);
    RedactObject(scrub, b, 0);
    DeleteCommutes(scrub, a.fields, 1, "user");
    DeleteCommutes(scrub, b.fields, 1, "user");
    var ra, rb := RedactFields(scrub, fa, 1), RedactFields(scrub, fb, 1);
    UniqueAfterDelete(a.fields, "user");
    UniqueAfterDelete(b.fields, "user");
    SameKeysUnique(fa, ra);
    SameKeysUnique(fb, rb);
    forall i | 0 <= i < |ra|
      ensures ra[i].0 == rb[i].0
      ensures ra[i].1 == rb[i].1
              || (ra[i].0 == "request" && ra[i].1.Object? && rb[i].1.Object?
                  && SafeRequest(ra[i].1.fields) == SafeRequest(rb[i].1.fields))
    {
      if AlikeField(fa[i].0, fa[i].1, fb[i].1, 1) {
        AlikeFieldRedactsAlike(scrub, fa[i].0, fa[i].1, fb[i].1, 1);
      } else {
        AlikeRequestsLookAlike(scrub, fa[i].1, fb[i].1);
      }
    }
    AlikeTopLevels(ra, rb);
    SafeFieldsAgree(RedactFields(scrub, a.fields, 1), RedactFields(scrub, b.fields, 1), ra, rb);
  }

  lemma SafeFieldsAgree(a: Fields, b: Fields, ra: Fields, rb: Fields)
    requires Delete(a, "user") == ra && Delete(b, "user") == rb
    requires Lookup(ra, "request").Some? <==> Lookup(rb, "request").Some?
    requires Lookup(ra, "request").Some? ==>
               var va, vb := Lookup(ra, "request").value, Lookup(rb, "request").value;
               || (va == vb && ra == rb)
               || (va.Object? && vb.Object? && SafeRequest(va.fields) == SafeRequest(vb.fields)
                   && forall v :: Put(ra, "request", v) == Put(rb, "request", v))
    requires Lookup(ra, "request").None? ==> ra == rb
    ensures SafeFields(a) == SafeFields(b)
  {
    hide Delete, Put, Lookup, SafeRequest;
    var va, vb := Lookup(ra, "request"), Lookup(rb, "request");
    if va.Some? && va.value.Object? && vb.value.Object? {
      var v := Object(SafeRequest(va.value.fields));
      assert SafeFields(a) == Put(ra, "request", v);
      assert SafeFields(b) == Put(rb, "request", Object(SafeRequest(vb.value.fields)));
    }
  }

  // ---------------------------------------------------------------- what is kept of an event

  lemma {:induction false} LookupAt(fields: Fields, i: nat)
    requires UniqueKeys(fields) && i < |fields|
    ensures Lookup(fields, fields[i].0) == Some(fields[i].1)
  {
    if i == 0 {
    } else {
      LookupAt(fields[1..], i - 1);
    }
  }

  lemma {:induction false} LookupAfterDelete(fields: Fields, key: string, other: string)
    requires key != other
    ensures Lookup(Delete(fields, other), key) == Lookup(fields, key)
  {
    if fields == [] {
    } else {
      LookupAfterDelete(fields[1..], key, other);
      var rest := Delete(fields[1..], other);
      assert ([fields[0]] + rest)[1..] == rest && [] + rest == rest;
    }
  }

  lemma {:induction false} LookupAfterPut(fields: Fields, key: string, other: string, v: Value)
    requires key != other
    ensures Lookup(Put(fields, other, v), key) == Lookup(fields, key)
  {
    if fields == [] {
    } else {
      LookupAfterPut(fields[1..], key, other, v);
      assert Put(fields, other, v)[1..] == Put(fields[1..], other, v);
    }
  }

  lemma {:induction false} LookupRedacted(scrub: Scrub, fields: Fields, depth: nat, key: string)
    ensures Lookup(RedactFields(scrub, fields, depth), key)
            == match Lookup(fields, key)
               case None => None
               case Some(v) => Some(RedactField(scrub, key, v, depth))
  {
    hide RedactField;
    if fields == [] {
    } else {
      LookupRedacted(scrub, fields[1..], depth, key);
      assert RedactFields(scrub, fields, depth)[1..] == RedactFields(scrub, fields[1..], depth);
    }
  }

  /** Every field of an event but the user and the request is in the scrubbed event, with its redacted
      value, and no other field is. */
  lemma OtherFieldsSurvive(scrub: Scrub, event: Value, key: string)
    requires event.Object? && key !in {"user", "request"}
    ensures ScrubEvent(scrub, event).Object?
    ensures Lookup(ScrubEvent(scrub, event).fields, key)
            == match Lookup(event.fields, key)
               case None => None
               case Some(v) => Some(RedactField(scrub, key, v, 1))
  {
    hide RedactField, Delete, Put, Lookup, SafeRequest, RedactFields;
    RedactObject(scrub, event, 0);
    var redacted := RedactFields(scrub, event.fields, 1);
    LookupRedacted(scrub, event.fields, 1, key);
    LookupAfterDelete(redacted, key, "user");
    var known := Delete(redacted, "user");
    var request := Lookup(known, "request");
    if request.Some? && request.value.Object? {
      LookupAfterPut(known, key, "request", Object(SafeRequest(request.value.fields)));
    }
  }

  /** Every field of an event's request but its body, cookies and headers is in the scrubbed request, with
      its redacted value. */
  lemma RequestFieldsSurvive(scrub: Scrub, event: Value, inner: Fields, key: string)
    requires event.Object? && Lookup(event.fields, "request") == Some(Object(inner))
    requires key !in {"data", "cookies", "headers"} && (key == "url" ==> ScrubOk(scrub))
    ensures var request := Lookup(ScrubEvent(scrub, event).fields, "request");
            && request.Some? && request.value.Object?
            && Lookup(request.value.fields, key)
               == match Lookup(inner, key)
                  case None => None
                  case Some(v) => Some(RedactField(scrub, key, v, 2))
  {
    hide RedactField, Delete, Put, Lookup, RedactFields, Sensitive, UrlKey;
    RedactObject(scrub, event, 0);
    RedactObject(scrub, Object(inner), 1);
    var redacted := RedactFields(scrub, event.fields, 1);
    var safe := RedactFields(scrub, inner, 2);
    LookupRedacted(scrub, event.fields, 1, "request");
    RequestIsPlain();
    RequestRedacted(scrub, inner);
    LookupAfterDelete(redacted, "request", "user");
    var known := Delete(redacted, "user");
    PutMeans(known, "request", Object(SafeRequest(safe)));
    LookupRedacted(scrub, inner, 2, key);
    if key == "url" && Lookup(inner, "url").Some? { UrlRedacted(scrub, Lookup(inner, "url").value); }
    SafeRequestKeeps(safe, key);
  }

  lemma RequestRedacted(scrub: Scrub, inner: Fields)
    requires !Sensitive("request")
    ensures RedactField(scrub, "request", Object(inner), 1) == Object(RedactFields(scrub, inner, 2))
  {
    hide Sensitive, UrlKey, RedactFields;
    RedactObject(scrub, Object(inner), 1);
  }

  lemma UrlRedacted(scrub: Scrub, v: Value)
    requires ScrubOk(scrub)
    ensures var r := RedactField(scrub, "url", v, 2); r.Text? ==> NoMarks(r.s)
  {
    hide Sensitive, UrlKey;
    UrlIsUrlKey();
    RedactionHasNoMarks();
    if v.Text? { BeforeMarkHasNone(v.s); }
  }

  lemma SafeRequestKeeps(fields: Fields, key: string)
    requires key !in {"data", "cookies", "headers"}
    requires key == "url" && Lookup(fields, "url").Some? && Lookup(fields, "url").value.Text? ==>
               NoMarks(Lookup(fields, "url").value.s)
    ensures Lookup(SafeRequest(fields), key) == Lookup(fields, key)
  {
    hide Delete, Put, Lookup;
    var a := Delete(fields, "data");
    var b := Delete(a, "cookies");
    LookupAfterDelete(fields, key, "data");
    LookupAfterDelete(a, key, "cookies");
    LookupAfterDelete(b, key, "headers");
    var bare := Delete(b, "headers");
    var url := Lookup(bare, "url");
    if url.Some? && url.value.Text? {
      if key == "url" {
        BeforeQuestionKeeps(url.value.s);
        PutMeans(bare, "url", Text(BeforeQuestion(url.value.s)));
      } else {
        LookupAfterPut(bare, key, "url", Text(BeforeQuestion(url.value.s)));
      }
    }
  }

  /** An event's level leaves as it came, but for the scrubbing of its text. */
  lemma LevelIsKept(scrub: Scrub, level: string)
    ensures ScrubEvent(scrub, Object([("level", Text(level))])) == Object([("level", Text(scrub(level)))])
  {
    hide Sensitive, UrlKey;
    LevelIsPlain();
    var event := Object([("level", Text(level))]);
    var redacted := Redact(scrub, event, 0);
    assert RedactField(scrub, "level", Text(level), 1) == Text(scrub(level));
    assert redacted.fields[0] == ("level", Text(scrub(level)));
    assert redacted.fields == [("level", Text(scrub(level)))];
    LevelFields(redacted.fields);
  }

  lemma LevelFields(fields: Fields)
    requires |fields| == 1 && fields[0].0 == "level"
    ensures SafeFields(fields) == fields
  {
    assert "level"[0] == 'l' && "user"[0] == 'u' && "request"[0] == 'r';
    assert fields[1..] == [];
    assert Delete(fields[1..], "user") == [] && Lookup(fields[1..], "request") == None;
    assert Delete(fields, "user") == [fields[0]] + [];
    assert [fields[0]] + [] == fields;
  }
}
