/** When a cache key identifies its conversation (internal/usecase/chat/tool_conversion.go,
    internal/infrastructure/cache/llm_cache.go): the key joins roles and contents, and is then trimmed. */
module ConversationKeys {
  import opened Text
  import opened LlmCache
  import opened ChatLoop
  import CC = ChatCache

  /** The roles of the messages that ProcessMessage sends. */
  predicate KnownRole(role: string) {
    role == "user" || role == "assistant"
  }

  ghost predicate KnownRoles(ms: seq<Message>) {
    forall i :: 0 <= i < |ms| ==> KnownRole(ms[i].role)
  }

  /** What stands between two contents. */
  function Separator(role: string): string {
    "\n---\n" + role + ": "
  }

  /** The role whose separator `s` begins with. */
  function SeparatorRole(s: string): (r: Option<string>)
    ensures r.Some? ==> KnownRole(r.value) && Separator(r.value) <= s
  {
    if Separator("user") <= s then Some("user")
    else if Separator("assistant") <= s then Some("assistant")
    else None
  }

  /** No separator occurs in the content. */
  ghost predicate SeparatorFree(content: string) {
    forall i :: 0 <= i <= |content| ==> SeparatorRole(content[i..]).None?
  }

  ghost predicate AllFree(ms: seq<Message>) {
    forall i :: 0 <= i < |ms| ==> SeparatorFree(ms[i].content)
  }

  // ---------- the shape of a key ----------

  function Tail(ms: seq<Message>): string {
    if ms == [] then "" else Separator(ms[0].role) + ms[0].content + Tail(ms[1..])
  }

  function Head(m: Message): string {
    m.role + ": " + m.content
  }

  lemma {:induction false} TailSnoc(ms: seq<Message>, m: Message)
    ensures Tail(ms + [m]) == Tail(ms) + Separator(m.role) + m.content
  {
    if ms == [] {
      assert [] + [m] == [m] && [m][1..] == [];
    } else {
      assert (ms + [m])[1..] == ms[1..] + [m];
      TailSnoc(ms[1..], m);
    }
  }

  lemma KeySnoc(ms: seq<Message>)
    requires |ms| > 1
    ensures CacheKey(ms) == CacheKey(ms[..|ms| - 1]) + Separator(ms[|ms| - 1].role) + ms[|ms| - 1].content
  {
    Regroup(CacheKey(ms[..|ms| - 1]), "\n---\n", ms[|ms| - 1].role, ": ", ms[|ms| - 1].content);
  }

  lemma Regroup(a: string, b: string, c: string, d: string, e: string)
    ensures a + b + c + d + e == a + (b + c + d) + e
  {
  }

  lemma KeyOne(m: Message)
    ensures CacheKey([m]) == Head(m) + Tail([])
  {
  }

  lemma {:induction false} KeyShape(ms: seq<Message>)
    requires ms != []
    ensures CacheKey(ms) == Head(ms[0]) + Tail(ms[1..])
  {
    hide CacheKey, Tail, Head, Separator;
    if |ms| == 1 {
      KeyOne(ms[0]);
      assert ms == [ms[0]] && ms[1..] == [];
    } else {
      var init, last := ms[..|ms| - 1], ms[|ms| - 1];
      KeySnoc(ms);
      KeyShape(init);
      assert ms[1..] == init[1..] + [last];
      TailSnoc(init[1..], last);
    }
  }

  // ---------- reading a key ----------

  function Decode(role: string, done: string, s: string): seq<Message>
    decreases |s|
  {
    if s == "" then [Message(role, done)]
    else match SeparatorRole(s)
      case Some(r) => [Message(role, done)] + Decode(r, "", s[|Separator(r)|..])
      case None => Decode(role, done + [s[0]], s[1..])
  }

  function ReadKey(key: string): seq<Message> {
    if "user: " <= key then Decode("user", "", key[6..])
    else if "assistant: " <= key then Decode("assistant", "", key[11..])
    else []
  }

  /** A separator cannot begin inside a content and end in the separator that follows it. */
  lemma NoOverlap(content: string, tail: string, role: string)
    requires content != "" && SeparatorRole(content).None? && KnownRole(role)
    requires tail == "" || Separator(role) <= tail
    ensures SeparatorRole(content + tail).None?
  {
    NoOverlapFor(content, tail, role, "user");
    NoOverlapFor(content, tail, role, "assistant");
  }

  lemma NoOverlapFor(content: string, tail: string, role: string, other: string)
    requires content != "" && !(Separator(other) <= content) && KnownRole(role) && KnownRole(other)
    requires tail == "" || Separator(role) <= tail
    ensures !(Separator(other) <= content + tail)
  {
    var sep, s, n := Separator(other), content + tail, |content|;
    assert forall i :: 0 < i < |sep| && sep[i] == '\n' ==> i == 4 && sep[5] != '-';
    if tail != "" {
      assert s[n] == tail[0] == '\n' && s[n + 1] == tail[1] == '-';
    }
    if |sep| <= n {
      assert s[..|sep|] == content[..|sep|];
    }
  }

  lemma SeparatorAhead(role: string, rest: string)
    requires KnownRole(role)
    ensures SeparatorRole(Separator(role) + rest) == Some(role)
  {
    var s := Separator(role) + rest;
    assert Separator(role) <= s && s[5] == role[0];
    assert Separator("user")[5] == 'u' && Separator("assistant")[5] == 'a';
  }

  lemma {:induction false} DecodeUndoes(role: string, done: string, content: string, rest: seq<Message>)
    requires SeparatorFree(content) && KnownRoles(rest) && AllFree(rest)
    ensures Decode(role, done, content + Tail(rest)) == [Message(role, done + content)] + rest
    decreases |rest|, |content|
  {
    hide SeparatorRole, Separator;
    var s := content + Tail(rest);
    if content != "" {
      assert content[0..] == content;
      NoOverlap(content, Tail(rest), if rest == [] then "user" else rest[0].role) by {
        TailStarts(rest);
      }
      FreeTail(content);
      assert s[1..] == content[1..] + Tail(rest);
      DecodeUndoes(role, done + [content[0]], content[1..], rest);
      assert done + [content[0]] + content[1..] == done + content;
    } else if rest != [] {
      var sep, next := Separator(rest[0].role), rest[0].content + Tail(rest[1..]);
      assert s == sep + next;
      SeparatorAhead(rest[0].role, next);
      assert s[|sep|..] == next && s != "" by {
        SeparatorLong(rest[0].role);
      }
      DecodeUndoes(rest[0].role, "", rest[0].content, rest[1..]);
      assert "" + rest[0].content == rest[0].content && done + "" == done;
      assert rest == [rest[0]] + rest[1..];
    } else {
      assert done + "" == done && s == "";
    }
  }

  lemma SeparatorLong(role: string)
    ensures |Separator(role)| > 5
  {
  }

  lemma TailStarts(rest: seq<Message>)
    ensures rest != [] ==> Separator(rest[0].role) <= Tail(rest)
    ensures rest == [] ==> Tail(rest) == ""
  {
    if rest != [] {
      assert Tail(rest) == Separator(rest[0].role) + (rest[0].content + Tail(rest[1..]));
    }
  }

  lemma FreeTail(content: string)
    requires SeparatorFree(content) && content != ""
    ensures SeparatorFree(content[1..])
  {
    forall i | 0 <= i <= |content| - 1 ensures SeparatorRole(content[1..][i..]).None? {
      assert content[1..][i..] == content[i + 1..];
    }
  }

  lemma ReadHead(role: string, s: string)
    requires KnownRole(role)
    ensures ReadKey(role + ": " + s) == Decode(role, "", s)
  {
    hide Decode;
    var key := role + ": " + s;
    assert key[0] == role[0] && key[|role| + 2..] == s;
    assert "user: "[0] == 'u' && "assistant: "[0] == 'a';
  }

  lemma KeySplit(ms: seq<Message>)
    requires ms != []
    ensures CacheKey(ms) == ms[0].role + ": " + (ms[0].content + Tail(ms[1..]))
  {
    hide Tail;
    KeyShape(ms);
  }

  lemma ReadUndoes(ms: seq<Message>)
    requires ms != [] && KnownRoles(ms) && AllFree(ms)
    ensures ReadKey(CacheKey(ms)) == ms
  {
    hide ReadKey, CacheKey, Decode, Tail, SeparatorFree;
    KeySplit(ms);
    ReadHead(ms[0].role, ms[0].content + Tail(ms[1..]));
    DecodeUndoes(ms[0].role, "", ms[0].content, ms[1..]);
    assert "" + ms[0].content == ms[0].content && ms == [ms[0]] + ms[1..];
  }

  /** Whatever is read spells the key again, with known roles and contents free of separators. */
  lemma {:induction false} DecodeSpells(role: string, done: string, s: string)
    requires KnownRole(role)
    requires forall i :: 0 <= i < |done| ==> SeparatorRole((done + s)[i..]).None?
    ensures var ms := Decode(role, done, s);
            && ms != [] && ms[0].role == role && KnownRoles(ms) && AllFree(ms)
            && ms[0].content + Tail(ms[1..]) == done + s
    decreases |s|
  {
    hide SeparatorRole, Separator;
    var ms := Decode(role, done, s);
    if s == "" {
      assert done + s == done;
      DoneIsFree(done, s);
    } else {
      match SeparatorRole(s)
      case Some(r) =>
        SeparatorLong(r);
        DecodeSpells(r, "", s[|Separator(r)|..]);
        DoneIsFree(done, s);
        MessageSpells(role, done, s, r, Decode(r, "", s[|Separator(r)|..]));
      case None =>
        var more := done + [s[0]];
        assert more + s[1..] == done + s;
        assert (done + s)[|done|..] == s;
        DecodeSpells(role, more, s[1..]);
    }
  }

  lemma MessageSpells(role: string, done: string, s: string, r: string, rest: seq<Message>)
    requires KnownRole(role) && SeparatorFree(done) && SeparatorRole(s) == Some(r)
    requires rest != [] && rest[0].role == r && KnownRoles(rest) && AllFree(rest)
    requires rest[0].content + Tail(rest[1..]) == "" + s[|Separator(r)|..]
    ensures var ms := [Message(role, done)] + rest;
            KnownRoles(ms) && AllFree(ms) && ms[0].content + Tail(ms[1..]) == done + s
  {
    hide Separator, SeparatorFree, KnownRole;
    var ms := [Message(role, done)] + rest;
    assert ms[1..] == rest;
    assert Tail(rest) == Separator(r) + (rest[0].content + Tail(rest[1..]));
    assert s == Separator(r) + s[|Separator(r)|..] && "" + s[|Separator(r)|..] == s[|Separator(r)|..];
  }

  lemma DoneIsFree(done: string, s: string)
    requires forall i :: 0 <= i < |done| ==> SeparatorRole((done + s)[i..]).None?
    ensures SeparatorFree(done)
  {
    forall i | 0 <= i <= |done| ensures SeparatorRole(done[i..]).None? {
      if i < |done| {
        assert (done + s)[i..] == done[i..] + s;
        StaysInLonger(done[i..], s);
      }
    }
  }

  lemma StaysInLonger(x: string, y: string)
    ensures SeparatorRole(x).Some? ==> SeparatorRole(x + y).Some?
  {
    assert Separator("user") <= x ==> Separator("user") <= x + y;
    assert Separator("assistant") <= x ==> Separator("assistant") <= x + y;
  }

  // ---------- trimming ----------

  /** The last content is compared up to trailing space. */
  function TrimLast(ms: seq<Message>): seq<Message> {
    if ms == [] then []
    else ms[|ms| - 1 := Message(ms[|ms| - 1].role, TrimRight(ms[|ms| - 1].content))]
  }

  function Pad(content: string): string {
    if TrimRight(content) == "" then "" else TrimRight(content) + " "
  }

  /** The conversation whose key is the trimmed key with one space put back. */
  function Padded(ms: seq<Message>): seq<Message> {
    if ms == [] then []
    else ms[|ms| - 1 := Message(ms[|ms| - 1].role, Pad(ms[|ms| - 1].content))]
  }

  /** Known roles, and no content, the last one trimmed and closed by a space, holds a separator. */
  ghost predicate Legible(ms: seq<Message>) {
    ms != [] && KnownRoles(ms) && AllFree(Padded(ms))
  }

  lemma {:induction false} TrimRightConcat(x: string, y: string)
    ensures TrimRight(x + y) == if TrimRight(y) == "" then TrimRight(x) else x + TrimRight(y)
    decreases |y|
  {
    if y == "" {
      assert x + y == x;
    } else if IsSpace(y[|y| - 1]) {
      assert (x + y)[..|x + y| - 1] == x + y[..|y| - 1];
      TrimRightConcat(x, y[..|y| - 1]);
    }
  }

  /** All of the key but the last content. */
  function Stem(ms: seq<Message>): string
    requires ms != []
  {
    if |ms| == 1 then ms[0].role + ": " else CacheKey(ms[..|ms| - 1]) + "\n---\n" + ms[|ms| - 1].role + ": "
  }

  lemma KeyIsStem(ms: seq<Message>, content: string)
    requires ms != []
    ensures CacheKey(ms[|ms| - 1 := Message(ms[|ms| - 1].role, content)]) == Stem(ms) + content
  {
    var ns := ms[|ms| - 1 := Message(ms[|ms| - 1].role, content)];
    assert ns[..|ns| - 1] == ms[..|ms| - 1];
  }

  lemma TrimmedKey(ms: seq<Message>)
    requires ms != [] && KnownRoles(ms)
    ensures TrimSpace(CacheKey(ms)) + " " == CacheKey(Padded(ms))
  {
    hide IsSpace, CacheKey, Stem, TrimRight, TrimLeft;
    var last := ms[|ms| - 1];
    assert ms[|ms| - 1 := Message(last.role, last.content)] == ms;
    KeyIsStem(ms, last.content);
    KeyIsStem(ms, Pad(last.content));
    KeyShape(ms);
    var stem := Stem(ms);
    TrimLeftKeeps(CacheKey(ms));
    TrimRightConcat(stem, last.content);
    StemTrimmed(ms);
    if TrimRight(last.content) == "" {
      assert stem + "" == stem;
    } else {
      assert stem + TrimRight(last.content) + " " == stem + (TrimRight(last.content) + " ");
    }
  }

  lemma TrimLeftKeeps(s: string)
    requires s != "" && (s[0] == 'u' || s[0] == 'a')
    ensures TrimLeft(s) == s
  {
  }

  lemma StemTrimmed(ms: seq<Message>)
    requires ms != []
    ensures TrimRight(Stem(ms)) + " " == Stem(ms)
  {
    var stem := Stem(ms);
    var n := |stem|;
    assert stem[n - 2] == ':' && stem[n - 1] == ' ';
    TrimRightColon(stem[..n - 1]);
    assert stem == stem[..n - 1] + " ";
  }

  lemma TrimRightColon(s: string)
    requires s != "" && s[|s| - 1] == ':'
    ensures TrimRight(s) == s
  {
  }

  lemma {:induction false} TrimRightTwice(s: string)
    ensures TrimRight(TrimRight(s)) == TrimRight(s) && TrimRight(s + " ") == TrimRight(s)
  {
    assert (s + " ")[..|s|] == s;
    if s != "" && IsSpace(s[|s| - 1]) {
      TrimRightTwice(s[..|s| - 1]);
    }
  }

  // ---------- the key identifies the conversation ----------

  lemma SameTrimSamePad(ms: seq<Message>, ns: seq<Message>)
    requires ms != [] && ns != []
    ensures TrimLast(ms) == TrimLast(ns) <==> Padded(ms) == Padded(ns)
  {
    hide TrimRight;
    if |ms| == |ns| {
      var n := |ms| - 1;
      var a, b := ms[n].content, ns[n].content;
      PadShowsTrim(a, b);
      assert TrimLast(ms)[n] == Message(ms[n].role, TrimRight(a))
          && TrimLast(ns)[n] == Message(ns[n].role, TrimRight(b));
      assert Padded(ms)[n] == Message(ms[n].role, Pad(a)) && Padded(ns)[n] == Message(ns[n].role, Pad(b));
      if TrimLast(ms) == TrimLast(ns) {
        assert forall i :: 0 <= i < n ==> ms[i] == TrimLast(ms)[i] == TrimLast(ns)[i] == ns[i];
      }
      if Padded(ms) == Padded(ns) {
        assert forall i :: 0 <= i < n ==> ms[i] == Padded(ms)[i] == Padded(ns)[i] == ns[i];
      }
    }
  }

  lemma PadShowsTrim(a: string, b: string)
    ensures Pad(a) == Pad(b) <==> TrimRight(a) == TrimRight(b)
  {
    var x, y := TrimRight(a), TrimRight(b);
    assert (x + " ")[..|x|] == x && (y + " ")[..|y|] == y;
  }

  /** Two legible conversations have one cache key exactly if they are the same but for space at the end. */
  lemma KeysEqualIff(ms: seq<Message>, ns: seq<Message>)
    requires Legible(ms) && Legible(ns)
    ensures KeyOf(CacheKey(ms)) == KeyOf(CacheKey(ns)) <==> TrimLast(ms) == TrimLast(ns)
  {
    hide TrimSpace, CacheKey, TrimLast;
    TrimmedKey(ms);
    TrimmedKey(ns);
    PaddedKnown(ms);
    PaddedKnown(ns);
    ReadUndoes(Padded(ms));
    ReadUndoes(Padded(ns));
    SameTrimSamePad(ms, ns);
    var x, y := TrimSpace(CacheKey(ms)), TrimSpace(CacheKey(ns));
    assert (x + " ")[..|x|] == x && (y + " ")[..|y|] == y;
  }

  lemma PaddedKnown(ms: seq<Message>)
    requires ms != [] && KnownRoles(ms)
    ensures Padded(ms) != [] && KnownRoles(Padded(ms))
  {
  }

  /** The legible conversation that a key stands for. */
  function Reading(ms: seq<Message>): seq<Message> {
    ReadKey(TrimSpace(CacheKey(ms)) + " ")
  }

  lemma ReadingIsLegible(ms: seq<Message>)
    requires ms != [] && KnownRoles(ms)
    ensures Legible(Reading(ms)) && Padded(Reading(ms)) == Reading(ms)
    ensures KeyOf(CacheKey(Reading(ms))) == KeyOf(CacheKey(ms))
  {
    hide IsSpace;
    var key := TrimSpace(CacheKey(ms)) + " ";
    var ns := Reading(ms);
    TrimmedKey(ms);
    PaddedKnown(ms);
    ReadSpells(Padded(ms));
    assert CacheKey(ns) == key;
    KeyShape(ns);
    TrimLeftKeeps(key);
    TrimRightTwice(TrimLeft(CacheKey(ms)));
    TrimRightTwice(TrimSpace(CacheKey(ms)));
    assert TrimSpace(key) == TrimSpace(CacheKey(ms));
    TrimmedKey(ns);
    assert CacheKey(Padded(ns)) == CacheKey(ns);
    var last := ns[|ns| - 1];
    assert ns[|ns| - 1 := Message(last.role, last.content)] == ns;
    KeyIsStem(ns, last.content);
    KeyIsStem(ns, Pad(last.content));
    assert (Stem(ns) + last.content)[|Stem(ns)|..] == last.content;
    assert (Stem(ns) + Pad(last.content))[|Stem(ns)|..] == Pad(last.content);
  }

  /** Reading the key of a conversation with known roles spells that key again. */
  lemma ReadSpells(ms: seq<Message>)
    requires ms != [] && KnownRoles(ms)
    ensures var ns := ReadKey(CacheKey(ms)); ns != [] && KnownRoles(ns) && AllFree(ns) && CacheKey(ns) == CacheKey(ms)
  {
    hide ReadKey, CacheKey, Decode, Tail, SeparatorFree;
    var s := ms[0].content + Tail(ms[1..]);
    KeySplit(ms);
    ReadHead(ms[0].role, s);
    DecodeSpells(ms[0].role, "", s);
    KeySplit(ReadKey(CacheKey(ms)));
    assert "" + s == s;
  }

  /** A conversation is told by its key, among the legible ones, exactly if it is legible itself. */
  lemma LegibleIsTold(ms: seq<Message>)
    requires ms != [] && KnownRoles(ms)
    ensures Legible(ms)
       <==> forall ns :: Legible(ns) && KeyOf(CacheKey(ns)) == KeyOf(CacheKey(ms)) ==> TrimLast(ns) == TrimLast(ms)
  {
    hide KeyOf, CacheKey, TrimLast, Padded, Reading;
    if Legible(ms) {
      forall ns | Legible(ns) && KeyOf(CacheKey(ns)) == KeyOf(CacheKey(ms)) ensures TrimLast(ns) == TrimLast(ms) {
        KeysEqualIff(ms, ns);
      }
    } else {
      var ns := Reading(ms);
      ReadingIsLegible(ms);
      SameTrimSamePad(ms, ns);
    }
  }

  // ---------- among all conversations ----------

  ghost predicate Known(ms: seq<Message>) {
    ms != [] && KnownRoles(ms)
  }

  /** The key tells this conversation apart from every other with known roles. */
  ghost predicate Identified(ms: seq<Message>) {
    forall ns :: Known(ns) && KeyOf(CacheKey(ns)) == KeyOf(CacheKey(ms)) ==> TrimLast(ns) == TrimLast(ms)
  }

  /** One message whose text spells out the whole conversation. */
  function Typed(ms: seq<Message>): seq<Message>
    requires ms != []
  {
    [Message(ms[0].role, ms[0].content + Tail(ms[1..]))]
  }

  lemma TypedSharesKey(ms: seq<Message>)
    requires Known(ms)
    ensures Known(Typed(ms)) && CacheKey(Typed(ms)) == CacheKey(ms)
  {
    KeySplit(ms);
    KeySplit(Typed(ms));
    var content := ms[0].content + Tail(ms[1..]);
    assert Typed(ms)[1..] == [] && content + "" == content;
  }

  /** Another conversation with known roles that has the same key, unless there is none. */
  function Rival(ms: seq<Message>): seq<Message>
    requires ms != []
  {
    if |ms| > 1 then Typed(ms) else Reading(ms)
  }

  lemma RivalSharesKey(ms: seq<Message>)
    requires Known(ms) && !(|ms| == 1 && Legible(ms))
    ensures Known(Rival(ms)) && KeyOf(CacheKey(Rival(ms))) == KeyOf(CacheKey(ms)) && TrimLast(Rival(ms)) != TrimLast(ms)
  {
    hide KeyOf, CacheKey, Reading, Padded;
    if |ms| > 1 {
      TypedSharesKey(ms);
    } else {
      ReadingIsLegible(ms);
      SameTrimSamePad(ms, Reading(ms));
    }
  }

  /** A text without separators is not the key of several messages. */
  lemma SeveralHoldSeparator(content: string, rest: seq<Message>)
    requires rest != [] && KnownRoles(rest)
    ensures !SeparatorFree(content + Tail(rest))
  {
    hide Separator;
    var s, next := content + Tail(rest), rest[0].content + Tail(rest[1..]);
    assert Tail(rest) == Separator(rest[0].role) + next;
    SeparatorAhead(rest[0].role, next);
    assert s[|content|..] == Tail(rest);
  }

  lemma OneLegibleIsIdentified(ms: seq<Message>, ns: seq<Message>)
    requires |ms| == 1 && Legible(ms) && Known(ns) && KeyOf(CacheKey(ns)) == KeyOf(CacheKey(ms))
    ensures TrimLast(ns) == TrimLast(ms)
  {
    hide TrimSpace, CacheKey, TrimLast, Tail, SeparatorFree;
    TrimmedKey(ms);
    TrimmedKey(ns);
    PaddedKnown(ns);
    var p, q := Padded(ms), Padded(ns);
    KeySplit(p);
    KeySplit(q);
    assert p[1..] == [] && Tail([]) == "" by {
      EmptyTail();
    }
    var x, y := p[0].content + "", q[0].content + Tail(q[1..]);
    assert x == p[0].content;
    SameHead(p[0].role, x, q[0].role, y);
    assert SeparatorFree(y);
    if |q| > 1 {
      SeveralHoldSeparator(q[0].content, q[1..]);
    }
    assert q[1..] == [] && y == q[0].content + "" == q[0].content;
    assert p == [p[0]] && q == [q[0]] && p[0] == q[0];
    SameTrimSamePad(ms, ns);
  }

  lemma EmptyTail()
    ensures Tail([]) == ""
  {
  }

  lemma SameHead(r: string, x: string, q: string, y: string)
    requires KnownRole(r) && KnownRole(q) && r + ": " + x == q + ": " + y
    ensures r == q && x == y
  {
    var s, t := r + ": " + x, q + ": " + y;
    assert s[0] == r[0] && t[0] == q[0] && "user"[0] == 'u' && "assistant"[0] == 'a';
    assert s[|r| + 2..] == x && t[|q| + 2..] == y;
  }

  /** The key identifies a conversation exactly if that is a single legible message: every longer one can be
      typed as the text of one message, and an illegible one reads as another. */
  lemma KeyIdentifiesIff(ms: seq<Message>)
    requires Known(ms)
    ensures Identified(ms) <==> |ms| == 1 && Legible(ms)
  {
    hide KeyOf, CacheKey, TrimLast, Rival, Legible;
    if |ms| == 1 && Legible(ms) {
      forall ns | Known(ns) && KeyOf(CacheKey(ns)) == KeyOf(CacheKey(ms)) ensures TrimLast(ns) == TrimLast(ms) {
        OneLegibleIsIdentified(ms, ns);
      }
    } else {
      RivalSharesKey(ms);
    }
  }

  // ---------- hits ----------

  /** The messages that were asked have these conversations. */
  ghost predicate AskedFor(tasks: seq<CC.Task>, asked: seq<seq<Message>>) {
    |asked| == |tasks| && forall i :: 0 <= i < |asked| ==> Known(asked[i]) && tasks[i].key == KeyOf(CacheKey(asked[i]))
  }

  /** The response was the answer to a message with this conversation. */
  ghost predicate OwnAnswer(es: seq<CC.ChatEvent>, asked: seq<seq<Message>>, ms: seq<Message>, r: LlmResponse) {
    exists i :: 0 <= i < |es| && es[i].Finish? && es[i].id < |asked|
                && TrimLast(asked[es[i].id]) == TrimLast(ms) && es[i].answer == Reply(r)
  }

  /** In every interleaving of concurrent messages: a hit for a single legible message was the answer to this
      same message, whatever the others said; and a hit for any legible conversation was the answer to this
      same conversation if the others were legible. */
  lemma HitIsForThisConversation(ttl: int, es: seq<CC.ChatEvent>, asked: seq<seq<Message>>, ms: seq<Message>, now: int)
    requires CC.Run(ttl, es).Some? && AskedFor(CC.Run(ttl, es).value.tasks, asked) && Legible(ms)
    requires |ms| == 1 || forall i :: 0 <= i < |asked| ==> Legible(asked[i])
    requires Lookup(CC.Run(ttl, es).value.entries, KeyOf(CacheKey(ms)), now).Some?
    ensures OwnAnswer(es, asked, ms, Lookup(CC.Run(ttl, es).value.entries, KeyOf(CacheKey(ms)), now).value)
  {
    hide KeyOf, CacheKey, TrimLast, Legible;
    var s, k := CC.Run(ttl, es).value, KeyOf(CacheKey(ms));
    CC.CachedWasAnswered(ttl, es);
    var i :| 0 <= i < |es| && CC.AnswersWith(es[i], s.tasks, k, s.entries[k].response);
    var ns := asked[es[i].id];
    if |ms| == 1 {
      OneLegibleIsIdentified(ms, ns);
    } else {
      KeysEqualIff(ns, ms);
    }
  }

  /** For every other conversation there is a run in which a hit was the answer to a different one. */
  lemma HitCanBeForeign(ttl: int, ms: seq<Message>, r: LlmResponse, t: int)
    requires Known(ms) && !(|ms| == 1 && Legible(ms)) && ttl >= 0 && r.toolCalls == []
    ensures var es := [CC.Fetch(KeyOf(CacheKey(Rival(ms))), t), CC.Finish(0, Reply(r), t, None)];
            && CC.Run(ttl, es).Some? && AskedFor(CC.Run(ttl, es).value.tasks, [Rival(ms)])
            && Lookup(CC.Run(ttl, es).value.entries, KeyOf(CacheKey(ms)), t) == Some(r)
            && !OwnAnswer(es, [Rival(ms)], ms, r)
  {
    hide KeyOf, CacheKey, TrimLast, Rival, Legible, KnownRoles;
    RivalSharesKey(ms);
    AskAndAnswer(ttl, KeyOf(CacheKey(ms)), r, t);
  }

  lemma AskAndAnswer(ttl: int, k: Key, r: LlmResponse, t: int)
    requires r.toolCalls == []
    ensures CC.Run(ttl, [CC.Fetch(k, t), CC.Finish(0, Reply(r), t, None)])
         == Some(CC.Chat(map[k := Entry(r, t + ttl)], [CC.Finished(k)]))
  {
    var (fetch, finish) := (CC.Fetch(k, t), CC.Finish(0, Reply(r), t, None));
    CC.RunSnoc(ttl, [], fetch);
    assert [] + [fetch] == [fetch] && [] + [CC.Asked(k, None)] == [CC.Asked(k, None)];
    CC.RunSnoc(ttl, [fetch], finish);
    assert [fetch] + [finish] == [fetch, finish] && [CC.Asked(k, None)][0 := CC.Finished(k)] == [CC.Finished(k)];
  }
}
