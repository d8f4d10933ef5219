/** Redis keys of the read-through cache: non-empty segments joined by colons, and the pattern of a group. */
module CacheKeys {

  datatype Group = ExchangeMetadata | InstrumentList | LastTimestamp

  /** What a cached value is asked for by: its group and further key parts. */
  datatype Request = Request(group: Group, parts: seq<string>)

  function Name(g: Group): string {
    match g
    case ExchangeMetadata => "exchange_metadata"
    case InstrumentList => "instrument_list"
    case LastTimestamp => "last_timestamp"
  }

  function NonEmpty(segs: seq<string>): seq<string> {
    if segs == [] then []
    else if segs[0] == [] then NonEmpty(segs[1..])
    else [segs[0]] + NonEmpty(segs[1..])
  }

  /** ":".join(segs) */
  function Joined(segs: seq<string>): string {
    if segs == [] then []
    else if |segs| == 1 then segs[0]
    else segs[0] + [':'] + Joined(segs[1..])
  }

  /** The namespaced key of a request; empty segments are dropped. */
  function Key(ns: string, r: Request): string {
    Joined(NonEmpty([ns, "cache", Name(r.group)] + r.parts))
  }

  /** What every key that a group's scan pattern (the same key with a last segment `*`) matches begins with. */
  function GroupPrefix(ns: string, g: Group): string {
    Joined(NonEmpty([ns, "cache", Name(g)])) + [':']
  }

  predicate Matches(ns: string, g: Group, key: string) {
    GroupPrefix(ns, g) <= key
  }

  /** No part holds the separator. */
  predicate ColonFree(parts: seq<string>) {
    forall i | 0 <= i < |parts| :: ':' !in parts[i]
  }

  predicate Clean(parts: seq<string>) {
    ColonFree(parts) && forall i | 0 <= i < |parts| :: parts[i] != []
  }

  lemma {:induction false} NonEmptyIsClean(parts: seq<string>)
    requires ColonFree(parts)
    ensures Clean(NonEmpty(parts))
  {
    if parts != [] {
      assert ColonFree(parts[1..]);
      NonEmptyIsClean(parts[1..]);
    }
  }

  lemma {:induction false} NonEmptyOfClean(parts: seq<string>)
    requires Clean(parts)
    ensures NonEmpty(parts) == parts
  {
    if parts != [] {
      assert Clean(parts[1..]);
      NonEmptyOfClean(parts[1..]);
    }
  }

  lemma {:induction false} NonEmptyConcat(a: seq<string>, b: seq<string>)
    ensures NonEmpty(a + b) == NonEmpty(a) + NonEmpty(b)
  {
    if a == [] {
      assert a + b == b;
    } else {
      NonEmptyConcat(a[1..], b);
      var rest := NonEmpty(a[1..]);
      assert (a + b)[1..] == a[1..] + b;
      assert [a[0]] + (rest + NonEmpty(b)) == [a[0]] + rest + NonEmpty(b);
      assert NonEmpty(a) == if a[0] == [] then rest else [a[0]] + rest;
    }
  }

  lemma {:induction false} JoinedConcat(a: seq<string>, b: seq<string>)
    requires a != [] && b != []
    ensures Joined(a + b) == Joined(a) + [':'] + Joined(b)
  {
    if |a| == 1 {
      assert (a + b)[1..] == b;
    } else {
      JoinedConcat(a[1..], b);
      assert (a + b)[1..] == a[1..] + b;
      assert Joined(a + b) == a[0] + [':'] + (Joined(a[1..]) + [':'] + Joined(b));
    }
  }

  /** A colon-free text before the first colon can be read back. */
  lemma {:induction false} FirstColon(x: string, u: string, y: string, v: string)
    requires ':' !in x && ':' !in y && x + [':'] + u == y + [':'] + v
    ensures x == y && u == v
  {
    var w := x + [':'] + u;
    assert w[|x|] == ':' && w[|y|] == ':';
    assert forall i | 0 <= i < |x| :: w[i] == x[i] && x[i] in x;
    assert forall i | 0 <= i < |y| :: w[i] == y[i] && y[i] in y;
    assert w[..|x|] == x && w[..|y|] == y;
    assert w[|x| + 1..] == u && w[|y| + 1..] == v;
  }

  lemma {:induction false} ColonIn(x: string, u: string)
    ensures ':' in x + [':'] + u
  {
    assert (x + [':'] + u)[|x|] == ':';
  }

  /** Joining clean parts can be undone. */
  lemma {:induction false} JoinedInjective(a: seq<string>, b: seq<string>)
    requires Clean(a) && Clean(b) && a != [] && b != [] && Joined(a) == Joined(b)
    ensures a == b
  {
    if |a| == 1 && |b| == 1 {
      assert a == [a[0]] && b == [b[0]];
    } else if |a| == 1 {
      ColonIn(b[0], Joined(b[1..]));
    } else if |b| == 1 {
      ColonIn(a[0], Joined(a[1..]));
    } else {
      FirstColon(a[0], Joined(a[1..]), b[0], Joined(b[1..]));
      JoinedInjective(a[1..], b[1..]);
      assert a == [a[0]] + a[1..] && b == [b[0]] + b[1..];
    }
  }

  lemma {:induction false} NamesAreClean(g: Group)
    ensures Clean([Name(g)])
  {
    assert ':' !in Name(g);
  }

  lemma {:induction false} NamesDiffer(g: Group, h: Group)
    requires Name(g) == Name(h)
    ensures g == h
  {
    assert |"exchange_metadata"| == 17 && |"instrument_list"| == 15 && |"last_timestamp"| == 14;
  }

  /** A key is a base shared by all, a colon, the group name and the non-empty parts. */
  lemma {:induction false} KeyShape(ns: string, r: Request)
    ensures Key(ns, r) == Joined(NonEmpty([ns, "cache"])) + [':'] + Joined([Name(r.group)] + NonEmpty(r.parts))
  {
    var base := [ns, "cache"];
    var rest := [Name(r.group)] + r.parts;
    assert [ns, "cache", Name(r.group)] + r.parts == base + rest;
    NonEmptyConcat(base, rest);
    NonEmptyConcat([ns], ["cache"]);
    assert base == [ns] + ["cache"];
    NamesAreClean(r.group);
    NonEmptyOfClean([Name(r.group)]);
    NonEmptyConcat([Name(r.group)], r.parts);
    assert NonEmpty(["cache"]) == ["cache"];
    JoinedConcat(NonEmpty(base), NonEmpty(rest));
  }

  lemma {:induction false} PrefixShape(ns: string, g: Group)
    ensures GroupPrefix(ns, g) == Joined(NonEmpty([ns, "cache"])) + [':'] + Name(g) + [':']
  {
    KeyShape(ns, Request(g, []));
    assert [ns, "cache", Name(g)] + [] == [ns, "cache", Name(g)];
    assert [Name(g)] + NonEmpty([]) == [Name(g)];
  }

  /** Requests with colon-free parts share a key exactly when they differ only in empty parts. */
  lemma {:induction false} KeyInjective(ns: string, r: Request, q: Request)
    requires ColonFree(r.parts) && ColonFree(q.parts)
    ensures Key(ns, r) == Key(ns, q) <==> r.group == q.group && NonEmpty(r.parts) == NonEmpty(q.parts)
  {
    KeyShape(ns, r);
    KeyShape(ns, q);
    if Key(ns, r) == Key(ns, q) {
      var base := Joined(NonEmpty([ns, "cache"]));
      var a, b := [Name(r.group)] + NonEmpty(r.parts), [Name(q.group)] + NonEmpty(q.parts);
      assert (base + [':'] + Joined(a))[|base| + 1..] == Joined(a);
      assert (base + [':'] + Joined(b))[|base| + 1..] == Joined(b);
      NamesAreClean(r.group);
      NamesAreClean(q.group);
      NonEmptyIsClean(r.parts);
      NonEmptyIsClean(q.parts);
      JoinedInjective(a, b);
      assert a[0] == b[0] && a[1..] == b[1..];
      NamesDiffer(r.group, q.group);
    }
  }

  /** The pattern's star stands for any text, an empty one included. */
  lemma {:induction false} MatchesIff(ns: string, g: Group, key: string)
    ensures Matches(ns, g, key) <==> exists rest :: key == GroupPrefix(ns, g) + rest
  {
    if Matches(ns, g, key) {
      assert key == GroupPrefix(ns, g) + key[|GroupPrefix(ns, g)|..];
    }
  }

  lemma {:induction false} TailStartsWithGroup(g: Group, h: Group, parts: seq<string>)
    requires Clean(parts)
    ensures Name(g) + [':'] <= Joined([Name(h)] + parts) <==> g == h && parts != []
  {
    NamesAreClean(g);
    NamesAreClean(h);
    var tail := Joined([Name(h)] + parts);
    if parts == [] {
      assert [Name(h)] + parts == [Name(h)];
      assert forall i | 0 <= i < |tail| :: tail[i] in tail && tail[i] != ':';
      assert (Name(g) + [':'])[|Name(g)|] == ':';
    } else {
      JoinedConcat([Name(h)], parts);
      var rest := Joined(parts);
      assert tail == Name(h) + [':'] + rest;
      if Name(g) + [':'] <= tail {
        var v := tail[|Name(g)| + 1..];
        assert tail == Name(g) + [':'] + v;
        FirstColon(Name(h), rest, Name(g), v);
        NamesDiffer(g, h);
      }
    }
  }

  lemma {:induction false} PrefixOfConcat(base: string, p: string, s: string)
    ensures base + p <= base + s <==> p <= s
  {
    if base + p <= base + s {
      assert p == (base + p)[|base|..] && s == (base + s)[|base|..];
      assert s[..|p|] == (base + s)[|base|..|base + p|];
    }
    if p <= s {
      assert s == p + s[|p|..];
      assert base + s == base + p + s[|p|..];
    }
  }

  /**
    A group's pattern matches a request's key exactly when the request is of that group and has a
    non-empty part: other groups are safe, and a value cached without key parts is never invalidated by
    its group.
   */
  lemma {:induction false} GroupMatchesExactly(ns: string, g: Group, r: Request)
    requires ColonFree(r.parts)
    ensures Matches(ns, g, Key(ns, r)) <==> r.group == g && NonEmpty(r.parts) != []
  {
    KeyShape(ns, r);
    PrefixShape(ns, g);
    NonEmptyIsClean(r.parts);
    var base := Joined(NonEmpty([ns, "cache"])) + [':'];
    PrefixOfConcat(base, Name(g) + [':'], Joined([Name(r.group)] + NonEmpty(r.parts)));
    assert GroupPrefix(ns, g) == base + (Name(g) + [':']);
    TailStartsWithGroup(g, r.group, NonEmpty(r.parts));
  }

  /** The instrument list cached without parts survives the invalidation of its group. */
  lemma {:induction false} PartlessSurvives(ns: string, g: Group)
    ensures !Matches(ns, g, Key(ns, Request(g, [])))
  {
    GroupMatchesExactly(ns, g, Request(g, []));
  }

  lemma {:induction false} BaseText(ns: string, word: string)
    requires ns != [] && word != []
    ensures NonEmpty([ns, word]) == [ns, word] && Joined(NonEmpty([ns, word])) == ns + [':'] + word
  {
    assert [ns, word][1..] == [word] && [word][1..] == [];
    assert NonEmpty([word]) == [word];
  }

  lemma {:induction false} Spread(a: string, b: string, c: string, d: string)
    ensures a + [':'] + b + [':'] + (c + [':'] + d) == a + ([':'] + b + [':']) + c + ":" + d
  {
  }

  /** The text of a key: the prefix and the group's name, then the part, with colons between. */
  lemma {:induction false} KeyText(ns: string, r: Request, part: string)
    requires ns != [] && part != [] && r.parts == [part]
    ensures Key(ns, r) == ns + ":cache:" + (match r.group
                                            case ExchangeMetadata => "exchange_metadata"
                                            case InstrumentList => "instrument_list"
                                            case LastTimestamp => "last_timestamp") + ":" + part
  {
    var name := Name(r.group);
    KeyShape(ns, r);
    BaseText(ns, "cache");
    assert NonEmpty([part]) == [part];
    JoinedConcat([name], [part]);
    Spread(ns, "cache", name, part);
    assert [':'] + "cache" + [':'] == ":cache:";
  }
}
