// The text of cache keys: which entries a permission key, an invalidation pattern
// and a user id in a request refer to.
module CacheKeys {
  import opened Sql

  // Permissions without a tenant or project are filed under a sentinel.
  function Field(text: string): string {
    if text == "" then "-" else text
  }

  function Scope(tenant: string, project: string, user: string): string {
    Field(tenant) + ":" + Field(project) + ":" + user
  }

  function PermsKey(tenant: string, project: string, user: string): string {
    "perms:" + Scope(tenant, project, user)
  }

  function InvalidationPattern(user: string): string {
    "perms:*:*:" + user
  }

  function DenylistKey(jti: string): string {
    "denylist:" + jti
  }

  // ── Glob matching ─────────────────────────────────────────

  // `*` stands for any characters at all, `:` included, and `?` for any one.
  predicate Matches(pattern: string, text: string)
    decreases |pattern| + |text|
  {
    if pattern == "" then text == ""
    else if pattern[0] == '*' then
      Matches(pattern[1..], text) || (text != "" && Matches(pattern, text[1..]))
    else
      text != "" && (pattern[0] == '?' || pattern[0] == text[0]) && Matches(pattern[1..], text[1..])
  }

  predicate Literal(s: string) {
    forall c | c in s :: c !in {'*', '?', '[', ']', '\\'}
  }

  predicate NoColon(s: string) {
    ':' !in s
  }

  lemma {:induction false} LiteralPrefix(w: string, pattern: string, text: string)
    requires Literal(w)
    ensures Matches(w + pattern, text) <==> w <= text && Matches(pattern, text[|w|..])
  {
    if w == "" {
      assert w + pattern == pattern && text[0..] == text;
    } else if text != "" && w[0] == text[0] {
      assert (w + pattern)[0] == w[0] && w[0] in w && (w + pattern)[1..] == w[1..] + pattern;
      assert forall c | c in w[1..] :: c in w;
      LiteralPrefix(w[1..], pattern, text[1..]);
      assert w <= text <==> w[1..] <= text[1..];
      assert w <= text ==> text[1..][|w| - 1..] == text[|w|..];
    } else {
      assert (w + pattern)[0] == w[0] && w[0] in w;
    }
  }

  lemma LiteralMatchesItself(w: string, text: string)
    requires Literal(w)
    ensures Matches(w, text) <==> text == w
  {
    LiteralPrefix(w, "", text);
    assert w + "" == w;
  }

  lemma {:induction false} StarMatches(pattern: string, text: string)
    ensures Matches("*" + pattern, text) <==> exists i :: 0 <= i <= |text| && Matches(pattern, text[i..])
    decreases |text|
  {
    assert ("*" + pattern)[1..] == pattern;
    assert text[0..] == text;
    if text != "" {
      StarMatches(pattern, text[1..]);
      if i :| 0 <= i <= |text[1..]| && Matches(pattern, text[1..][i..]) {
        assert text[1..][i..] == text[i + 1..];
      }
      if i :| 0 < i <= |text| && Matches(pattern, text[i..]) {
        assert text[1..][i - 1..] == text[i..];
      }
    }
  }

  // A star followed by a colon matches exactly at a colon of the text.
  lemma StarColonMatches(pattern: string, text: string)
    ensures Matches("*:" + pattern, text) <==>
            exists i :: 0 <= i < |text| && text[i] == ':' && Matches(pattern, text[i + 1..])
  {
    assert "*:" + pattern == "*" + (":" + pattern);
    StarMatches(":" + pattern, text);
    forall i | 0 <= i <= |text|
      ensures Matches(":" + pattern, text[i..]) <==> i < |text| && text[i] == ':' && Matches(pattern, text[i + 1..])
    {
      LiteralPrefix(":", pattern, text[i..]);
      assert i < |text| ==> text[i..][1..] == text[i + 1..];
    }
  }

  // ── Separation ────────────────────────────────────────────

  // Tenant and project are UUID texts or empty: no colon, and not the sentinel.
  predicate KeyPart(s: string) {
    NoColon(s) && s != "-"
  }

  lemma {:induction false} FirstColon(a: string, b: string, x: string, y: string)
    requires NoColon(a) && NoColon(b) && a + ":" + x == b + ":" + y
    ensures a == b && x == y
  {
    var s := a + ":" + x;
    assert s[|a|] == ':' && s[|b|] == ':';
    assert forall i | 0 <= i < |a| :: s[i] == a[i] && a[i] in a;
    assert forall i | 0 <= i < |b| :: s[i] == b[i] && b[i] in b;
    assert |a| == |b|;
    assert a == s[..|a|] && b == s[..|b|];
    assert x == s[|a| + 1..] && y == s[|b| + 1..];
  }

  lemma ScopesAreSeparate(t: string, p: string, u: string, t': string, p': string, u': string)
    requires KeyPart(t) && KeyPart(p) && KeyPart(t') && KeyPart(p')
    requires Scope(t, p, u) == Scope(t', p', u')
    ensures t == t' && p == p' && u == u'
  {
    assert Scope(t, p, u) == Field(t) + ":" + (Field(p) + ":" + u);
    assert Scope(t', p', u') == Field(t') + ":" + (Field(p') + ":" + u');
    FirstColon(Field(t), Field(t'), Field(p) + ":" + u, Field(p') + ":" + u');
    FirstColon(Field(p), Field(p'), u, u');
  }

  lemma KeysAreSeparate(t: string, p: string, u: string, t': string, p': string, u': string)
    requires KeyPart(t) && KeyPart(p) && KeyPart(t') && KeyPart(p')
    requires PermsKey(t, p, u) == PermsKey(t', p', u')
    ensures t == t' && p == p' && u == u'
  {
    var body, body' := Scope(t, p, u), Scope(t', p', u');
    assert ("perms:" + body)[6..] == body && ("perms:" + body')[6..] == body';
    ScopesAreSeparate(t, p, u, t', p', u');
  }

  // The colons of a body are where the parts end, and nowhere else.
  lemma BodyColons(a: string, b: string, u: string, i: nat)
    requires NoColon(a) && NoColon(b) && NoColon(u)
    requires i < |a + ":" + b + ":" + u|
    ensures (a + ":" + b + ":" + u)[i] == ':' <==> i == |a| || i == |a| + 1 + |b|
  {
  }

  // From just after some colon of the body, one more star must end at the last.
  lemma TailMatches(a: string, b: string, u: string, w: string, i: nat)
    requires NoColon(a) && NoColon(b) && NoColon(u) && Literal(w)
    requires var body := a + ":" + b + ":" + u; i < |body| && body[i] == ':'
    ensures var body := a + ":" + b + ":" + u;
            Matches("*:" + w, body[i + 1..]) <==> i == |a| && w == u
  {
    hide Matches, Literal, NoColon;
    var body := a + ":" + b + ":" + u;
    var rest := body[i + 1..];
    BodyColons(a, b, u, i);
    StarColonMatches(w, rest);
    forall j | 0 <= j < |rest| && rest[j] == ':'
      ensures i == |a| && rest[j + 1..] == u
      ensures Matches(w, rest[j + 1..]) <==> u == w
    {
      BodyColons(a, b, u, i + 1 + j);
      LiteralMatchesItself(w, rest[j + 1..]);
    }
    if i == |a| {
      assert rest[|b|] == ':';
    }
  }

  lemma BodyMatches(a: string, b: string, u: string, w: string)
    requires NoColon(a) && NoColon(b) && NoColon(u) && Literal(w)
    ensures Matches("*:" + ("*:" + w), a + ":" + b + ":" + u) <==> w == u
  {
    hide Matches, Literal, NoColon;
    var body := a + ":" + b + ":" + u;
    StarColonMatches("*:" + w, body);
    forall i | 0 <= i < |body| && body[i] == ':'
      ensures Matches("*:" + w, body[i + 1..]) <==> i == |a| && w == u
    {
      TailMatches(a, b, u, w, i);
    }
    assert body[|a|] == ':';
  }

  // The pattern for a text matches the keys of the user with that very text, in
  // every tenant and project, and no other key.
  lemma PatternMatchesExactly(t: string, p: string, u: string, w: string)
    requires KeyPart(t) && KeyPart(p) && NoColon(u) && Literal(w)
    ensures Matches(InvalidationPattern(w), PermsKey(t, p, u)) <==> w == u
  {
    hide Matches, Literal;
    var stars := "*:" + ("*:" + w);
    assert InvalidationPattern(w) == "perms:" + stars;
    PermsIsLiteral();
    LiteralPrefix("perms:", stars, PermsKey(t, p, u));
    assert PermsKey(t, p, u)[6..] == Scope(t, p, u);
    BodyMatches(Field(t), Field(p), u, w);
  }

  lemma PermsIsLiteral()
    ensures Literal("perms:")
  {
  }

  // Denylist entries are out of the pattern's reach and no permission key.
  lemma DenylistIsApart(jti: string, w: string, t: string, p: string, u: string)
    ensures !Matches(InvalidationPattern(w), DenylistKey(jti))
    ensures DenylistKey(jti) != PermsKey(t, p, u)
  {
  }

  // ── Texts of a user id ────────────────────────────────────

  type Digits = d: seq<nat> | |d| == 32 && forall n | n in d :: n < 16 witness seq(32, _ => 0)

  function HexValue(c: char): Option<nat> {
    if '0' <= c <= '9' then Some(c as nat - '0' as nat)
    else if 'a' <= c <= 'f' then Some(10 + c as nat - 'a' as nat)
    else if 'A' <= c <= 'F' then Some(10 + c as nat - 'A' as nat)
    else None
  }

  function HexDigit(n: nat): char
    requires n < 16
  {
    "0123456789abcdef"[n]
  }

  function Plain(d: Digits): (s: string)
    ensures |s| == 32
  {
    seq(32, i requires 0 <= i < 32 => assert d[i] in d; HexDigit(d[i]))
  }

  // The hyphenated lower-case form, which tokens carry.
  function Canonical(d: Digits): string {
    var h := Plain(d);
    h[..8] + "-" + h[8..12] + "-" + h[12..16] + "-" + h[16..20] + "-" + h[20..]
  }

  function ParsePlain(s: string): Option<Digits> {
    if |s| == 32 && forall c | c in s :: HexValue(c).Some?
    then Some(seq(32, i requires 0 <= i < 32 => assert s[i] in s; HexValue(s[i]).value))
    else None
  }

  function ParseHyphenated(s: string): Option<Digits> {
    if |s| == 36 && s[8] == '-' && s[13] == '-' && s[18] == '-' && s[23] == '-'
    then ParsePlain(s[..8] + s[9..13] + s[14..18] + s[19..23] + s[24..])
    else None
  }

  // A request may write a user id plain, hyphenated, braced or as a URN, in
  // either case.
  function ParseUuid(s: string): Option<Digits> {
    if |s| == 32 then ParsePlain(s)
    else if |s| == 36 then ParseHyphenated(s)
    else if |s| == 38 && s[0] == '{' && s[37] == '}' then ParseHyphenated(s[1..37])
    else if |s| == 45 && s[..9] == "urn:uuid:" then ParseHyphenated(s[9..])
    else None
  }

  lemma HexRoundTrip(n: nat)
    requires n < 16
    ensures HexValue(HexDigit(n)) == Some(n)
  {
  }

  lemma PlainRoundTrip(d: Digits)
    ensures ParsePlain(Plain(d)) == Some(d)
  {
    forall i | 0 <= i < 32
      ensures HexValue(Plain(d)[i]) == Some(d[i])
    {
      assert d[i] in d;
      HexRoundTrip(d[i]);
    }
    assert forall c | c in Plain(d) :: exists i | 0 <= i < 32 :: Plain(d)[i] == c;
    assert ParsePlain(Plain(d)).value == d;
  }

  lemma CanonicalRoundTrip(d: Digits)
    ensures ParseUuid(Canonical(d)) == Some(d)
  {
    var h, s := Plain(d), Canonical(d);
    assert s[..8] == h[..8] && s[9..13] == h[8..12] && s[14..18] == h[12..16];
    assert s[19..23] == h[16..20] && s[24..] == h[20..];
    assert h[..8] + h[8..12] + h[12..16] + h[16..20] + h[20..] == h;
    PlainRoundTrip(d);
  }

  // What a parsed id may be written with: nothing the pattern would interpret.
  lemma ParsedTextIsLiteral(w: string)
    requires ParseUuid(w).Some?
    ensures Literal(w)
  {
    forall c | c in w
      ensures c !in {'*', '?', '[', ']', '\\'}
    {
      var i :| 0 <= i < |w| && w[i] == c;
      ParsedCharacter(w, i);
    }
  }

  predicate Permitted(c: char) {
    HexValue(c).Some? || c in {'-', '{', '}', ':', 'u', 'r', 'n', 'i', 'd'}
  }

  lemma HyphenatedCharacter(s: string, i: nat)
    requires ParseHyphenated(s).Some? && i < |s|
    ensures HexValue(s[i]).Some? || s[i] == '-'
  {
  }

  lemma ParsedCharacter(w: string, i: nat)
    requires ParseUuid(w).Some? && i < |w|
    ensures Permitted(w[i])
  {
  }

  lemma CanonicalHasNoColon(d: Digits)
    ensures KeyPart(Canonical(d))
  {
    CanonicalRoundTrip(d);
    forall c | c in Canonical(d)
      ensures c != ':'
    {
      var i :| 0 <= i < 36 && Canonical(d)[i] == c;
      HyphenatedCharacter(Canonical(d), i);
    }
  }

  // Texts as they are, for keys with and without a tenant.
  lemma KnownTexts()
    ensures PermsKey("t", "p", "u") == "perms:t:p:u" && PermsKey("t", "", "u") == "perms:t:-:u"
    ensures PermsKey("", "", "u") == "perms:-:-:u" && DenylistKey("j") == "denylist:j"
  {
  }

  // Canonical text is the digits in order, hyphenated in five groups.
  lemma DigitsInOrder(d: Digits, i: nat)
    requires i < 32
    ensures d[i] in d && Plain(d)[i] == "0123456789abcdef"[d[i]] && |Canonical(d)| == 36
    ensures Hyphens(Canonical(d)) && WithoutHyphens(Canonical(d))[i] == "0123456789abcdef"[d[i]]
  {
    CanonicalExactly(Canonical(d), d);
    hide Canonical;
  }

  // ── What a request accepts ────────────────────────────────

  function LowerCase(c: char): char {
    if 'A' <= c <= 'Z' then c + (32 as char) else c
  }

  function Lower(s: string): (t: string)
    ensures |t| == |s| && forall i | 0 <= i < |s| :: t[i] == LowerCase(s[i])
  {
    seq(|s|, i requires 0 <= i < |s| => LowerCase(s[i]))
  }

  lemma HexIgnoresCase(c: char, n: nat)
    requires n < 16
    ensures HexValue(c) == Some(n) <==> LowerCase(c) == HexDigit(n)
  {
  }

  lemma PlainExactly(s: string, d: Digits)
    requires |s| == 32
    ensures ParsePlain(s) == Some(d) <==> Lower(s) == Plain(d)
  {
    forall i | 0 <= i < 32
      ensures HexValue(s[i]) == Some(d[i]) <==> Lower(s)[i] == Plain(d)[i]
    {
      assert d[i] in d;
      HexIgnoresCase(s[i], d[i]);
    }
    hide HexValue, HexDigit, LowerCase;
    ParsesDigitwise(s, d);
  }

  lemma ParsesDigitwise(s: string, d: Digits)
    requires |s| == 32
    ensures ParsePlain(s) == Some(d) <==> forall i | 0 <= i < 32 :: HexValue(s[i]) == Some(d[i])
  {
    hide HexValue;
    if ParsePlain(s) == Some(d) {
      forall i | 0 <= i < 32
        ensures HexValue(s[i]) == Some(d[i])
      {
        assert s[i] in s && ParsePlain(s).value[i] == HexValue(s[i]).value;
      }
    }
    if forall i | 0 <= i < 32 :: HexValue(s[i]) == Some(d[i]) {
      assert forall c | c in s :: exists i | 0 <= i < 32 :: s[i] == c;
      assert ParsePlain(s).value == d;
    }
  }

  predicate Hyphens(s: string)
    requires |s| == 36
  {
    s[8] == '-' && s[13] == '-' && s[18] == '-' && s[23] == '-'
  }

  function WithoutHyphens(s: string): (t: string)
    requires |s| == 36
    ensures |t| == 32
  {
    s[..8] + s[9..13] + s[14..18] + s[19..23] + s[24..]
  }

  lemma CanonicalExactly(s: string, d: Digits)
    ensures s == Canonical(d) <==> |s| == 36 && Hyphens(s) && WithoutHyphens(s) == Plain(d)
  {
    var h, c := Plain(d), Canonical(d);
    assert c[..8] == h[..8] && c[9..13] == h[8..12] && c[14..18] == h[12..16];
    assert c[19..23] == h[16..20] && c[24..] == h[20..];
    assert WithoutHyphens(c) == h;
    if |s| == 36 && Hyphens(s) && WithoutHyphens(s) == h {
      assert s[..8] == h[..8] && s[9..13] == h[8..12] && s[14..18] == h[12..16];
      assert s[19..23] == h[16..20] && s[24..] == h[20..];
      assert s == s[..8] + "-" + s[9..13] + "-" + s[14..18] + "-" + s[19..23] + "-" + s[24..];
    }
  }

  lemma HyphenatedExactly(s: string, d: Digits)
    ensures ParseHyphenated(s) == Some(d) <==> Lower(s) == Canonical(d)
  {
    CanonicalExactly(Lower(s), d);
    hide ParsePlain, Plain, Canonical;
    if |s| == 36 {
      assert WithoutHyphens(Lower(s)) == Lower(WithoutHyphens(s));
      PlainExactly(WithoutHyphens(s), d);
    }
  }

  // A request's text means an id exactly when, case aside, it is the id plain or
  // hyphenated, the latter also in braces or as a URN.
  lemma AcceptedExactly(w: string, d: Digits)
    ensures ParseUuid(w) == Some(d) <==>
      || Lower(w) == Plain(d)
      || Lower(w) == Canonical(d)
      || Lower(w) == "{" + Canonical(d) + "}"
      || ("urn:uuid:" <= w && Lower(w[9..]) == Canonical(d))
  {
    CanonicalExactly(Canonical(d), d);
    hide ParsePlain, ParseHyphenated, Plain, Canonical, HexValue;
    if |w| == 32 {
      PlainExactly(w, d);
    } else if |w| == 36 {
      HyphenatedExactly(w, d);
    } else if |w| == 38 {
      var inner := w[1..37];
      HyphenatedExactly(inner, d);
      assert Lower(w)[1..37] == Lower(inner);
      assert w[0] == '{' && w[37] == '}' ==> Lower(w) == "{" + Lower(inner) + "}";
    } else if |w| == 45 {
      HyphenatedExactly(w[9..], d);
    }
  }

  // Different ids have different canonical texts.
  lemma CanonicalIsInjective(d: Digits, d': Digits)
    ensures Canonical(d) == Canonical(d') ==> d == d'
  {
    CanonicalRoundTrip(d);
    CanonicalRoundTrip(d');
  }

  // An invalidation asked for with some text of a user's id reaches the entries
  // of that user exactly when the text is the canonical one, and never those of
  // anybody else.
  lemma InvalidationReachesExactly(t: string, p: string, holder: Digits, w: string)
    requires KeyPart(t) && KeyPart(p) && ParseUuid(w).Some?
    ensures Matches(InvalidationPattern(w), PermsKey(t, p, Canonical(holder))) <==> w == Canonical(holder)
    ensures w == Canonical(holder) ==> ParseUuid(w) == Some(holder)
  {
    hide Matches, ParseUuid, Canonical;
    ParsedTextIsLiteral(w);
    CanonicalHasNoColon(holder);
    CanonicalRoundTrip(holder);
    PatternMatchesExactly(t, p, Canonical(holder), w);
  }

  // The same id without hyphens is accepted and drops nothing.
  lemma PlainTextReachesNothing(t: string, p: string, d: Digits)
    requires KeyPart(t) && KeyPart(p)
    ensures ParseUuid(Plain(d)) == Some(d)
    ensures !Matches(InvalidationPattern(Plain(d)), PermsKey(t, p, Canonical(d)))
  {
    hide Matches;
    PlainRoundTrip(d);
    InvalidationReachesExactly(t, p, d, Plain(d));
    assert |Canonical(d)| == 36;
  }
}
