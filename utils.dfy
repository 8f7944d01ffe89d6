/** Field extraction from load-balancer ARNs and DNS names (src/utils.rs).
    An ARN is a `:`-separated list of fields; its sixth field (the resource)
    is itself `/`-separated. A classic load balancer's DNS name is a
    `.`-separated host name whose second label is the region. */
module Utils {
  import opened Wrappers

  /** Number of occurrences of `c` in `s`. */
  function Occurrences(s: string, c: char): nat
  {
    if |s| == 0 then 0 else (if s[0] == c then 1 else 0) + Occurrences(s[1..], c)
  }

  /** Rust's `str::split` on one character, collected: the pieces between
      separators, in order; `SplitPieces` says how many there are. */
  function Split(s: string, sep: char): (parts: seq<string>)
    ensures |parts| >= 1
  {
    if |s| == 0 then [""]
    else
      var rest := Split(s[1..], sep);
      if s[0] == sep then [""] + rest
      else [[s[0]] + rest[0]] + rest[1..]
  }

  /** Rust's `join` of string slices with a one-character separator. */
  function Join(parts: seq<string>, sep: char): string
  {
    if |parts| == 0 then ""
    else if |parts| == 1 then parts[0]
    else parts[0] + [sep] + Join(parts[1..], sep)
  }

  /** What follows the first `c` in `s`; empty when `s` has no `c`. */
  function AfterFirst(s: string, c: char): (r: string)
    ensures c !in s ==> r == ""
    ensures c in s ==> exists k :: 0 <= k < |s| && s[k] == c && c !in s[..k] && r == s[k + 1..]
  {
    if |s| == 0 then ""
    else if s[0] == c then s[1..]
    else
      var r := AfterFirst(s[1..], c);
      assert c in s ==> c in s[1..];
      assert c in s ==> exists k :: 0 <= k < |s| && s[k] == c && c !in s[..k] && r == s[k + 1..] by {
        if c in s {
          var k :| 0 <= k < |s[1..]| && s[1..][k] == c && c !in s[1..][..k] && r == s[1..][k + 1..];
          assert s[..k + 1] == [s[0]] + s[1..][..k];
          assert s[k + 2..] == s[1..][k + 1..];
        }
      }
      r
  }

  // ---------------------------------------------------------------------------
  // Split and Join are inverse to each other

  /** There is one more piece than there are separators, and no piece
      contains the separator. */
  lemma {:induction false} SplitPieces(s: string, sep: char)
    ensures |Split(s, sep)| == Occurrences(s, sep) + 1
    ensures forall i :: 0 <= i < |Split(s, sep)| ==> sep !in Split(s, sep)[i]
  {
    if |s| > 0 {
      SplitPieces(s[1..], sep);
      var parts, rest := Split(s, sep), Split(s[1..], sep);
      forall i | 0 <= i < |parts| ensures sep !in parts[i] {
        if s[0] == sep {
          if i > 0 {
            assert parts[i] == rest[i - 1];
          }
        } else if i == 0 {
          assert parts[0] == [s[0]] + rest[0];
        } else {
          assert parts[i] == rest[i];
        }
      }
    }
  }

  lemma {:induction false} OccursCounted(s: string, c: char)
    requires c in s
    ensures Occurrences(s, c) >= 1
  {
    if s[0] != c {
      assert c in s[1..] by { assert s == [s[0]] + s[1..]; }
      OccursCounted(s[1..], c);
    }
  }

  lemma {:induction false} SplitWithoutSeparator(s: string, sep: char)
    requires sep !in s
    ensures Split(s, sep) == [s]
  {
    if |s| > 0 {
      assert sep !in s[1..] by { assert forall x :: x in s[1..] ==> x in s; }
      SplitWithoutSeparator(s[1..], sep);
      assert [s[0]] + s[1..] == s;
    }
  }

  /** Splitting a string that starts with `c`. */
  lemma SplitCons(c: char, t: string, sep: char)
    ensures Split([c] + t, sep) ==
      if c == sep then [""] + Split(t, sep) else [[c] + Split(t, sep)[0]] + Split(t, sep)[1..]
  {
  }

  /** Splitting at one separator splits the two sides independently. */
  lemma {:induction false} SplitConcat(a: string, b: string, sep: char)
    ensures Split(a + [sep] + b, sep) == Split(a, sep) + Split(b, sep)
  {
    if |a| == 0 {
      assert a + [sep] + b == [sep] + b;
      SplitCons(sep, b, sep);
    } else {
      var c, t := a[0], a[1..];
      assert a == [c] + t;
      assert a + [sep] + b == [c] + (t + [sep] + b);
      SplitConcat(t, b, sep);
      SplitCons(c, t, sep);
      SplitCons(c, t + [sep] + b, sep);
    }
  }

  /** Joining the pieces of a split gives back the original string. */
  lemma {:induction false} JoinSplit(s: string, sep: char)
    ensures Join(Split(s, sep), sep) == s
  {
    if |s| > 0 {
      var rest := Split(s[1..], sep);
      JoinSplit(s[1..], sep);
      if s[0] == sep {
        assert ([""] + rest)[1..] == rest;
      } else if |rest| == 1 {
        assert [s[0]] + s[1..] == s;
      } else {
        var parts := [[s[0]] + rest[0]] + rest[1..];
        assert parts[1..] == rest[1..];
        assert s == [s[0]] + s[1..];
      }
    }
  }

  /** Splitting the join of separator-free pieces gives back the pieces. */
  lemma {:induction false} SplitJoin(parts: seq<string>, sep: char)
    requires |parts| >= 1
    requires forall i :: 0 <= i < |parts| ==> sep !in parts[i]
    ensures Split(Join(parts, sep), sep) == parts
  {
    if |parts| == 1 {
      SplitWithoutSeparator(parts[0], sep);
    } else {
      SplitJoin(parts[1..], sep);
      SplitConcat(parts[0], Join(parts[1..], sep), sep);
      SplitWithoutSeparator(parts[0], sep);
    }
  }

  /** Text after the pieces `fields` does not change them: it starts with a
      separator or is empty. */
  lemma SplitLeadingFields(fields: seq<string>, rest: string, sep: char)
    requires |fields| >= 1
    requires forall i :: 0 <= i < |fields| ==> sep !in fields[i]
    requires rest == [] || rest[0] == sep
    ensures |Split(Join(fields, sep) + rest, sep)| >= |fields|
    ensures Split(Join(fields, sep) + rest, sep)[..|fields|] == fields
  {
    SplitJoin(fields, sep);
    if rest != [] {
      assert Join(fields, sep) + rest == Join(fields, sep) + [sep] + rest[1..];
      SplitConcat(Join(fields, sep), rest[1..], sep);
    } else {
      assert Join(fields, sep) + rest == Join(fields, sep);
    }
  }

  /** The pieces after the first, joined again, are what follows the first separator. */
  lemma {:induction false} JoinSplitTail(s: string, sep: char)
    ensures Join(Split(s, sep)[1..], sep) == AfterFirst(s, sep)
  {
    if |s| > 0 {
      var rest := Split(s[1..], sep);
      if s[0] == sep {
        assert ([""] + rest)[1..] == rest;
        JoinSplit(s[1..], sep);
      } else {
        assert ([[s[0]] + rest[0]] + rest[1..])[1..] == rest[1..];
        JoinSplitTail(s[1..], sep);
      }
    }
  }

  /** The last piece of a split is what follows the last separator: a
      suffix after a separator that holds no separator itself, or the whole
      string when there is none. */
  lemma {:induction false} LastPiece(s: string, sep: char)
    ensures var parts := Split(s, sep);
      && (sep !in s ==> parts[|parts| - 1] == s)
      && (sep in s ==> exists k :: 0 <= k < |s| && s[k] == sep && parts[|parts| - 1] == s[k + 1..])
      && sep !in parts[|parts| - 1]
  {
    SplitPieces(s, sep);
    if sep !in s {
      SplitWithoutSeparator(s, sep);
    } else {
      var parts, rest := Split(s, sep), Split(s[1..], sep);
      LastPiece(s[1..], sep);
      if s[0] == sep && sep !in s[1..] {
        SplitWithoutSeparator(s[1..], sep);
        assert parts[|parts| - 1] == s[0 + 1..];
      } else {
        assert sep in s[1..];
        OccursCounted(s[1..], sep);
        SplitPieces(s[1..], sep);
        assert |rest| >= 2;
        assert parts[|parts| - 1] == rest[|rest| - 1];
        var k :| 0 <= k < |s[1..]| && s[1..][k] == sep && rest[|rest| - 1] == s[1..][k + 1..];
        assert s[k + 1] == sep && s[(k + 1) + 1..] == s[1..][k + 1..];
      }
    }
  }

  // ---------------------------------------------------------------------------
  // The four extractors

  /** The load-balancer id CloudWatch expects: the ARN's sixth `:`-field with
      its first `/`-segment dropped ("app/my-lb/50dc..." from
      "...:loadbalancer/app/my-lb/50dc..."). */
  function ExtractIdFromLbArn(arn: string): Option<string>
  {
    var parts := Split(arn, ':');
    if |parts| >= 6 then Some(Join(Split(parts[5], '/')[1..], '/')) else None
  }

  /** The target-group id CloudWatch expects: the ARN's sixth `:`-field,
      split on `/` and joined again ("targetgroup/my-tg/73e2..."). */
  function ExtractIdFromTgArn(arn: string): Option<string>
  {
    var parts := Split(arn, ':');
    if |parts| >= 6 then Some(Join(Split(parts[5], '/'), '/')) else None
  }

  /** The region of a multi-stage load balancer: the ARN's fourth `:`-field. */
  function ExtractRegionFromElbv2Arn(arn: string): Option<string>
  {
    var parts := Split(arn, ':');
    if |parts| >= 4 then Some(parts[3]) else None
  }

  /** The region of a classic load balancer: the second `.`-label of its DNS
      name, provided there are at least three labels. */
  function ExtractRegionFromElbDns(dnsName: string): Option<string>
  {
    var parts := Split(dnsName, '.');
    if |parts| > 2 then Some(parts[1]) else None
  }

  /** An ARN yields a load-balancer id exactly when it has at least six
      fields; the id is what follows the first `/` of the sixth field. */
  lemma LbIdIsSixthFieldTail(arn: string)
    ensures var id := ExtractIdFromLbArn(arn);
      && (id.None? <==> Occurrences(arn, ':') < 5)
      && (id.Some? ==> id.value == AfterFirst(Split(arn, ':')[5], '/') && ':' !in id.value)
  {
    SplitPieces(arn, ':');
    var parts := Split(arn, ':');
    if |parts| >= 6 {
      JoinSplitTail(parts[5], '/');
      assert ':' !in parts[5];
    }
  }

  /** An ARN yields a target-group id exactly when it has at least six
      fields; the id is the sixth field unchanged. */
  lemma TgIdIsSixthField(arn: string)
    ensures var id := ExtractIdFromTgArn(arn);
      && (id.None? <==> Occurrences(arn, ':') < 5)
      && (id.Some? ==> id.value == Split(arn, ':')[5] && ':' !in id.value)
  {
    SplitPieces(arn, ':');
    var parts := Split(arn, ':');
    if |parts| >= 6 {
      JoinSplit(parts[5], '/');
    }
  }

  /** An ARN yields a region exactly when it has at least four fields; the
      region is the fourth field. */
  lemma Elbv2RegionIsFourthField(arn: string)
    ensures var region := ExtractRegionFromElbv2Arn(arn);
      && (region.None? <==> Occurrences(arn, ':') < 3)
      && (region.Some? ==> region.value == Split(arn, ':')[3] && ':' !in region.value)
  {
    SplitPieces(arn, ':');
  }

  /** A DNS name yields a region exactly when it has at least three labels;
      the region is the second label. */
  lemma ElbRegionIsSecondLabel(dnsName: string)
    ensures var region := ExtractRegionFromElbDns(dnsName);
      && (region.None? <==> Occurrences(dnsName, '.') < 2)
      && (region.Some? ==> region.value == Split(dnsName, '.')[1] && '.' !in region.value)
  {
    SplitPieces(dnsName, '.');
  }

  // ---------------------------------------------------------------------------
  // What the extractors return, read off the shape of the input

  /** For an ARN `f0:f1:f2:f3:f4:resource` (optionally followed by more
      `:`-fields), the target-group id is `resource` and the load-balancer id
      is what follows the first `/` of `resource`. */
  lemma ExtractIdsOfArn(fields: seq<string>, rest: string)
    requires |fields| == 6
    requires forall i :: 0 <= i < 6 ==> ':' !in fields[i]
    requires rest == [] || rest[0] == ':'
    ensures ExtractIdFromTgArn(Join(fields, ':') + rest) == Some(fields[5])
    ensures ExtractIdFromLbArn(Join(fields, ':') + rest) == Some(AfterFirst(fields[5], '/'))
  {
    SplitLeadingFields(fields, rest, ':');
    var parts := Split(Join(fields, ':') + rest, ':');
    assert parts[5] == parts[..6][5];
    JoinSplit(fields[5], '/');
    JoinSplitTail(fields[5], '/');
  }

  /** For an ARN `f0:f1:f2:region` (optionally followed by more `:`-fields)
      the region is `region`. */
  lemma ExtractRegionOfArn(fields: seq<string>, rest: string)
    requires |fields| == 4
    requires forall i :: 0 <= i < 4 ==> ':' !in fields[i]
    requires rest == [] || rest[0] == ':'
    ensures ExtractRegionFromElbv2Arn(Join(fields, ':') + rest) == Some(fields[3])
  {
    SplitLeadingFields(fields, rest, ':');
    var parts := Split(Join(fields, ':') + rest, ':');
    assert parts[3] == parts[..4][3];
  }

  /** For a DNS name `host.region.rest`, with `host` and `region` free of
      dots, the region is `region`. */
  lemma ExtractRegionOfDnsName(host: string, region: string, rest: string)
    requires '.' !in host && '.' !in region
    ensures ExtractRegionFromElbDns(host + "." + region + "." + rest) == Some(region)
  {
    var tail := region + "." + rest;
    assert host + "." + region + "." + rest == host + ['.'] + tail;
    assert tail == region + ['.'] + rest;
    SplitConcat(host, tail, '.');
    SplitConcat(region, rest, '.');
    SplitWithoutSeparator(host, '.');
    SplitWithoutSeparator(region, '.');
  }

  /** On one ARN, the load-balancer id is the target-group id with its first
      `/`-segment and that `/` removed, or empty when the id has no `/`. */
  lemma LbIdDropsFirstSegmentOfTgId(arn: string)
    requires ExtractIdFromTgArn(arn).Some?
    ensures ExtractIdFromLbArn(arn).Some?
    ensures var t, l := ExtractIdFromTgArn(arn).value, ExtractIdFromLbArn(arn).value;
      && ('/' !in t ==> l == "")
      && ('/' in t ==> exists k :: 0 <= k < |t| && t[k] == '/' && '/' !in t[..k] && l == t[k + 1..])
  {
    LbIdIsSixthFieldTail(arn);
    TgIdIsSixthField(arn);
  }

  /** Fields after the sixth are ignored by both id extractors. */
  lemma IdsIgnoreTrailingFields(arn: string, more: string)
    requires Occurrences(arn, ':') >= 5
    ensures ExtractIdFromLbArn(arn + ":" + more) == ExtractIdFromLbArn(arn)
    ensures ExtractIdFromTgArn(arn + ":" + more) == ExtractIdFromTgArn(arn)
  {
    assert arn + ":" + more == arn + [':'] + more;
    SplitConcat(arn, more, ':');
    SplitPieces(arn, ':');
    var parts := Split(arn, ':');
    assert Split(arn + ":" + more, ':')[5] == parts[5];
  }
}
