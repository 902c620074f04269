/**
 * recordion/constants.py: the domain-name grammar DOMAIN_RE, the record-type
 * policy (ALLOWED_RECORDS, LOCKED_RECORD_TYPES) and the SOA and TTL settings.
 */
module Constants {
  import opened Wrappers
  import opened Text

  // ---------------------------------------------------------------------
  // DOMAIN_RE
  // ---------------------------------------------------------------------

  /** `[a-zA-Z0-9]` */
  predicate IsAlnum(c: char)
  {
    'a' <= c <= 'z' || 'A' <= c <= 'Z' || '0' <= c <= '9'
  }

  /** `[a-zA-Z0-9\-]` */
  predicate IsLdh(c: char)
  {
    IsAlnum(c) || c == '-'
  }

  /** One label of DOMAIN_RE: `[a-zA-Z0-9]` or `[a-zA-Z0-9\-]{0,62}[a-zA-Z0-9]`. */
  predicate LabelMatch(part: string)
  {
    || (|part| == 1 && IsAlnum(part[0]))
    || (&& 1 <= |part| <= 63
        && (forall i :: 0 <= i < |part| - 1 ==> IsLdh(part[i]))
        && IsAlnum(part[|part| - 1]))
  }

  /**
   * DOMAIN_RE between `^` and `$`: a label followed by one or more `.label`.
   * Labels hold no dot, so the labels are exactly the pieces of a split on ".".
   */
  predicate DomainGrammar(s: string)
  {
    var labels := Split(s, '.');
    |labels| >= 2 && forall i :: 0 <= i < |labels| ==> LabelMatch(labels[i])
  }

  /** `DOMAIN_RE.match(s)` is truthy; Python's `$` also matches just before one final "\n". */
  predicate DomainReMatch(s: string)
  {
    || DomainGrammar(s)
    || (|s| > 0 && s[|s| - 1] == '\n' && DomainGrammar(s[..|s| - 1]))
  }

  /** The grammar is the language `label (. label)+`: exactly the joins of two or more matching labels. */
  lemma GrammarIsLabelSequence(s: string)
    ensures DomainGrammar(s) <==>
      exists labels: seq<string> ::
        && |labels| >= 2
        && (forall i :: 0 <= i < |labels| ==> LabelMatch(labels[i]))
        && s == Join(labels, '.')
  {
    if DomainGrammar(s) {
      JoinSplit(s, '.');
      assert s == Join(Split(s, '.'), '.');
    }
    if exists labels: seq<string> ::
        && |labels| >= 2
        && (forall i :: 0 <= i < |labels| ==> LabelMatch(labels[i]))
        && s == Join(labels, '.')
    {
      var labels: seq<string> :|
        && |labels| >= 2
        && (forall i :: 0 <= i < |labels| ==> LabelMatch(labels[i]))
        && s == Join(labels, '.');
      forall i | 0 <= i < |labels|
        ensures '.' !in labels[i]
      {
        LabelHasNoDot(labels[i]);
      }
      SplitJoin(labels, '.');
    }
  }

  lemma LabelHasNoDot(part: string)
    requires LabelMatch(part)
    ensures forall i :: 0 <= i < |part| ==> IsLdh(part[i])
    ensures '.' !in part
  {
  }

  /**
   * Every label of a matching name is 1 to 63 characters of `[A-Za-z0-9-]`
   * and ends with a letter or digit; it may start with a hyphen.
   */
  lemma LabelShape(part: string)
    ensures LabelMatch(part) <==>
      && 1 <= |part| <= 63
      && (forall i :: 0 <= i < |part| ==> IsLdh(part[i]))
      && part[|part| - 1] != '-'
  {
  }

  /** A name without a dot, such as `localhost`, never matches: the `(\.label)+` group needs one dot. */
  lemma SingleLabelRejected(s: string)
    requires '.' !in s
    ensures !DomainReMatch(s)
  {
    SplitNoSeparator(s, '.');
    if |s| > 0 {
      assert s == s[..|s| - 1] + [s[|s| - 1]];
      SplitNoSeparator(s[..|s| - 1], '.');
    }
  }

  /** No matching name starts or ends with a dot or holds an empty label `..`. */
  lemma GrammarHasNoEmptyLabel(s: string)
    requires DomainGrammar(s)
    ensures |s| > 0 && s[0] != '.' && s[|s| - 1] != '.'
    ensures forall i :: 0 <= i < |s| - 1 ==> !(s[i] == '.' && s[i + 1] == '.')
  {
    if |s| > 0 && s[0] == '.' {
      LeadingSeparatorPiece(s, '.');
    }
    if |s| > 0 && s[|s| - 1] == '.' {
      TrailingSeparatorPiece(s, '.');
    }
    forall i | 0 <= i < |s| - 1 && s[i] == '.' && s[i + 1] == '.'
      ensures false
    {
      DoubleSeparatorPiece(s, '.', i);
    }
  }

  /** The same holds of `DOMAIN_RE.match`, the final "\n" that `$` lets through included. */
  lemma MatchHasNoEmptyLabel(s: string)
    requires DomainReMatch(s)
    ensures |s| > 0 && s[0] != '.' && s[|s| - 1] != '.'
    ensures forall i :: 0 <= i < |s| - 1 ==> !(s[i] == '.' && s[i + 1] == '.')
  {
    if !DomainGrammar(s) {
      var t := s[..|s| - 1];
      GrammarHasNoEmptyLabel(t);
      assert s[0] == t[0];
      forall i | 0 <= i < |s| - 1
        ensures !(s[i] == '.' && s[i + 1] == '.')
      {
        if i + 1 < |s| - 1 {
          assert s[i] == t[i] && s[i + 1] == t[i + 1];
        }
      }
    } else {
      GrammarHasNoEmptyLabel(s);
    }
  }

  /** A string whose pieces are all `[A-Za-z0-9-]` is made of those characters and the separator. */
  lemma {:induction false} CharsOfLdhPieces(s: string)
    requires forall k :: 0 <= k < |Split(s, '.')| ==> forall j :: 0 <= j < |Split(s, '.')[k]| ==> IsLdh(Split(s, '.')[k][j])
    ensures forall i :: 0 <= i < |s| ==> IsLdh(s[i]) || s[i] == '.'
    decreases |s|
  {
    if s != [] {
      var rest := Split(s[1..], '.');
      if s[0] == '.' {
        assert Split(s, '.') == [""] + rest;
        forall k | 0 <= k < |rest|
          ensures forall j :: 0 <= j < |rest[k]| ==> IsLdh(rest[k][j])
        {
          assert rest[k] == Split(s, '.')[k + 1];
        }
      } else {
        var first := [s[0]] + rest[0];
        assert Split(s, '.') == [first] + rest[1..];
        assert first == Split(s, '.')[0];
        assert IsLdh(first[0]);
        forall k | 0 <= k < |rest|
          ensures forall j :: 0 <= j < |rest[k]| ==> IsLdh(rest[k][j])
        {
          if k == 0 {
            forall j | 0 <= j < |rest[0]| ensures IsLdh(rest[0][j]) {
              assert rest[0][j] == first[j + 1];
            }
          } else {
            assert rest[k] == Split(s, '.')[k];
          }
        }
      }
      CharsOfLdhPieces(s[1..]);
      forall i | 0 <= i < |s| ensures IsLdh(s[i]) || s[i] == '.' {
        if i > 0 {
          assert s[i] == s[1..][i - 1];
        }
      }
    }
  }

  /** A name in the grammar is made of `[A-Za-z0-9-]` and dots only. */
  lemma GrammarCharacters(s: string)
    requires DomainGrammar(s)
    ensures forall i :: 0 <= i < |s| ==> IsLdh(s[i]) || s[i] == '.'
  {
    forall k | 0 <= k < |Split(s, '.')|
      ensures forall j :: 0 <= j < |Split(s, '.')[k]| ==> IsLdh(Split(s, '.')[k][j])
    {
      LabelHasNoDot(Split(s, '.')[k]);
    }
    CharsOfLdhPieces(s);
  }

  /** Only ASCII letters, digits, `-` and `.` occur in a matching name, apart from the one final "\n" `$` admits. */
  lemma MatchCharacters(s: string)
    requires DomainReMatch(s)
    ensures forall i :: 0 <= i < |s| ==> IsLdh(s[i]) || s[i] == '.' || (i == |s| - 1 && s[i] == '\n')
  {
    var t := if DomainGrammar(s) then s else s[..|s| - 1];
    GrammarCharacters(t);
    forall i | 0 <= i < |s|
      ensures IsLdh(s[i]) || s[i] == '.' || (i == |s| - 1 && s[i] == '\n')
    {
      if i < |t| {
        assert s[i] == t[i];
      }
    }
  }

  /** `example.com` is in the grammar. */
  lemma ExampleComMatches(s: string)
    requires s == "example.com"
    ensures DomainGrammar(s)
  {
    var labels := ["example", "com"];
    assert LabelMatch(labels[0]) && LabelMatch(labels[1]);
    LabelHasNoDot(labels[0]);
    LabelHasNoDot(labels[1]);
    SplitJoin(labels, '.');
    assert Join(labels, '.') == s;
  }

  /** Python's `$` lets one trailing newline through: `example.com\n` matches, though it is not in the grammar. */
  lemma TrailingNewlineMatches(s: string)
    requires s == "example.com\n"
    ensures DomainReMatch(s)
    ensures !DomainGrammar(s)
  {
    ExampleComMatches(s[..|s| - 1]);
    if DomainGrammar(s) {
      GrammarCharacters(s);
    }
  }

  // ---------------------------------------------------------------------
  // Record-type policy
  // ---------------------------------------------------------------------

  const DefaultAllowedRecords: seq<string> := ["CNAME", "A", "AAAA", "TXT", "NS", "SRV"]

  const LockedRecordTypes: seq<string> := ["SOA"]

  /** `os.getenv("ALLOWED_RECORDS", "").split(",") or DEFAULT_ALLOWED_RECORDS`. */
  function AllowedRecords(setting: Option<string>): seq<string>
  {
    var parts := Split(if setting.Some? then setting.value else "", ',');
    if |parts| > 0 then parts else DefaultAllowedRecords
  }

  /**
   * The fallback to the default tuple is dead: a split is never empty, so the
   * allowed list is always the comma-split of the setting, and `[""]` when it is unset.
   */
  lemma AllowedRecordsIsTheSplit(setting: Option<string>)
    ensures AllowedRecords(setting) == Split(if setting.Some? then setting.value else "", ',')
    ensures setting.None? ==> AllowedRecords(setting) == [""]
    ensures setting.None? ==> forall t :: t in DefaultAllowedRecords ==> t !in AllowedRecords(setting)
  {
  }

  /** SOA is locked and not among the default allowed types. */
  lemma SoaLockedNotAllowed()
    ensures "SOA" in LockedRecordTypes && |LockedRecordTypes| == 1
    ensures "SOA" !in DefaultAllowedRecords
  {
  }

  // ---------------------------------------------------------------------
  // Settings
  // ---------------------------------------------------------------------

  /** The process-wide settings app.py reads; the database URL and the signing key are not part of this model. */
  datatype Config = Config(
    soaMname: string,
    soaRname: string,
    soaRefresh: int,
    soaRetry: int,
    soaExpire: int,
    soaTtl: int,
    defaultTtl: int,
    allowedRecords: seq<string>)

  /** `os.getenv(key, default)` over an explicit environment. */
  function Getenv(env: map<string, string>, key: string, default: string): string
  {
    if key in env then env[key] else default
  }

  /** The defaults of the numeric settings, as the strings `os.getenv` falls back to. */
  const DefaultSoaRefresh: string := "3600"
  const DefaultSoaRetry: string := "1800"
  const DefaultSoaExpire: string := "43200"
  const DefaultSoaTtl: string := "3600"
  const DefaultTtl: string := "300"

  /** The settings as constants.py computes them at import; None where an `int(...)` raises. */
  function LoadConfig(env: map<string, string>): Option<Config>
  {
    var refresh := ParseInt(Getenv(env, "SOA_REFRESH", DefaultSoaRefresh));
    var retry := ParseInt(Getenv(env, "SOA_RETRY", DefaultSoaRetry));
    var expire := ParseInt(Getenv(env, "SOA_EXPIRE", DefaultSoaExpire));
    var soaTtl := ParseInt(Getenv(env, "SOA_TTL", DefaultSoaTtl));
    var defaultTtl := ParseInt(Getenv(env, "DEFAULT_TTL", DefaultTtl));
    if refresh.None? || retry.None? || expire.None? || soaTtl.None? || defaultTtl.None? then None
    else
      Some(Config(
        Getenv(env, "SOA_MNAME", "ns.localhost.local"),
        Getenv(env, "SOA_RNAME", "admin.localhost.local"),
        refresh.value, retry.value, expire.value, soaTtl.value, defaultTtl.value,
        AllowedRecords(if "ALLOWED_RECORDS" in env then Some(env["ALLOWED_RECORDS"]) else None)))
  }

  /** The names of the settings constants.py reads, besides the database URL. */
  const SettingNames: set<string> :=
    {"SOA_MNAME", "SOA_RNAME", "SOA_REFRESH", "SOA_RETRY", "SOA_EXPIRE", "SOA_TTL", "DEFAULT_TTL", "ALLOWED_RECORDS"}

  /** An unset numeric setting whose default is what `str` prints for `n` reads as `n`. */
  lemma UnsetNumber(env: map<string, string>, key: string, default: string, n: int)
    requires key !in env && default == IntToString(n)
    ensures ParseInt(Getenv(env, key, default)) == Some(n)
  {
    ParseIntToString(n);
  }

  /** The default strings are what `str` prints for the default numbers. */
  lemma DefaultStrings()
    ensures DefaultSoaRefresh == IntToString(3600) && DefaultSoaTtl == IntToString(3600)
    ensures DefaultSoaRetry == IntToString(1800)
    ensures DefaultSoaExpire == IntToString(43200)
    ensures DefaultTtl == IntToString(300)
  {
    assert NatToString(36) == "36" && NatToString(360) == "360";
    assert NatToString(18) == "18" && NatToString(180) == "180";
    assert NatToString(43) == "43" && NatToString(432) == "432" && NatToString(4320) == "4320";
    assert NatToString(30) == "30";
  }

  /**
   * With none of the settings set: refresh 3600, retry 1800, expire 43200,
   * SOA ttl 3600, record ttl 300, and the allowed list `[""]`.
   */
  lemma DefaultConfig(env: map<string, string>)
    requires forall name :: name in SettingNames ==> name !in env
    ensures LoadConfig(env) == Some(Config(
      "ns.localhost.local", "admin.localhost.local", 3600, 1800, 43200, 3600, 300, [""]))
  {
    DefaultStrings();
    UnsetNumber(env, "SOA_REFRESH", DefaultSoaRefresh, 3600);
    UnsetNumber(env, "SOA_RETRY", DefaultSoaRetry, 1800);
    UnsetNumber(env, "SOA_EXPIRE", DefaultSoaExpire, 43200);
    UnsetNumber(env, "SOA_TTL", DefaultSoaTtl, 3600);
    UnsetNumber(env, "DEFAULT_TTL", DefaultTtl, 300);
    assert "ALLOWED_RECORDS" !in env;
    AllowedRecordsIsTheSplit(None);
  }
}
