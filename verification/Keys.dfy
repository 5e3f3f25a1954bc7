/** The `$`-joined composite keys (common/basetype/method.go, utils/common.go). */
module Keys {
  import opened Domain

  const SEP: char := '$'

  function NoModelKey(m: Metric): string {
    m.name + [SEP] + m.unit + [SEP] + m.query
  }

  function GetWithModelKey(noModelKey: string, modelType: string): string {
    noModelKey + [SEP] + modelType
  }

  function WithModelKey(m: Metric, modelType: string): string {
    GetWithModelKey(NoModelKey(m), modelType)
  }

  /** How Split extends the split of the rest by the first character. */
  function Prepend(c: char, rest: seq<string>): (r: seq<string>)
    requires |rest| >= 1
    ensures |r| >= 1
  {
    if c == SEP then [[]] + rest else [[c] + rest[0]] + rest[1..]
  }

  /** strings.Split(s, "$") */
  function Split(s: string): (parts: seq<string>)
    ensures |parts| >= 1
  {
    if s == [] then [[]] else Prepend(s[0], Split(s[1..]))
  }

  /** strings.Join(parts, "$") */
  function Join(parts: seq<string>): string {
    if |parts| == 0 then []
    else if |parts| == 1 then parts[0]
    else parts[0] + [SEP] + Join(parts[1..])
  }

  function GetNoModelKey(withModelKey: string): string {
    var strs := Split(withModelKey);
    Join(strs[..|strs| - 1])
  }

  function GetModelType(withModelKey: string): string {
    var strs := Split(withModelKey);
    strs[|strs| - 1]
  }

  // ---------------------------------------------------------------- split and join

  lemma {:induction false} JoinUndoesSplit(s: string)
    ensures Join(Split(s)) == s
  {
    if s != [] {
      JoinUndoesSplit(s[1..]);
      var rest := Split(s[1..]);
      if s[0] == SEP {
        assert ([[]] + rest)[1..] == rest;
      } else if |rest| > 1 {
        var parts := [[s[0]] + rest[0]] + rest[1..];
        assert parts[1..] == rest[1..];
        calc {
          Join(parts);
          ([s[0]] + rest[0]) + [SEP] + Join(rest[1..]);
          [s[0]] + (rest[0] + [SEP] + Join(rest[1..]));
          [s[0]] + s[1..];
          s;
        }
      }
    }
  }

  lemma {:induction false} SplitOfPlain(s: string)
    requires SEP !in s
    ensures Split(s) == [s]
  {
    if s != [] {
      assert forall c :: c in s[1..] ==> c in s;
      SplitOfPlain(s[1..]);
      assert s == [s[0]] + s[1..];
    }
  }

  lemma PrependAppend(c: char, rest: seq<string>, more: seq<string>)
    requires |rest| >= 1
    ensures Prepend(c, rest + more) == Prepend(c, rest) + more
  {
    assert (rest + more)[0] == rest[0] && (rest + more)[1..] == rest[1..] + more;
  }

  /** Splitting distributes over a joining separator. */
  lemma {:induction false} SplitAtSeparator(a: string, b: string)
    ensures Split(a + [SEP] + b) == Split(a) + Split(b)
  {
    var s := a + [SEP] + b;
    if a == [] {
      assert s[1..] == b;
    } else {
      SplitAtSeparator(a[1..], b);
      assert s[0] == a[0] && s[1..] == a[1..] + [SEP] + b;
      hide Prepend;
      PrependAppend(a[0], Split(a[1..]), Split(b));
    }
  }

  /** The pieces of a split carry no separator, so split is the exact inverse of join on
      non-empty lists of separator-free pieces. */
  lemma {:induction false} SplitUndoesJoin(parts: seq<string>)
    requires |parts| >= 1
    requires forall i :: 0 <= i < |parts| ==> SEP !in parts[i]
    ensures Split(Join(parts)) == parts
  {
    SplitOfPlain(parts[0]);
    if |parts| > 1 {
      SplitUndoesJoin(parts[1..]);
      SplitAtSeparator(parts[0], Join(parts[1..]));
    }
  }

  // ---------------------------------------------------------------- model keys

  lemma RecoverPlainType(key: string, modelType: string)
    requires SEP !in modelType
    ensures GetNoModelKey(GetWithModelKey(key, modelType)) == key
    ensures GetModelType(GetWithModelKey(key, modelType)) == modelType
  {
    SplitAtSeparator(key, modelType);
    SplitOfPlain(modelType);
    var strs := Split(GetWithModelKey(key, modelType));
    assert strs[..|strs| - 1] == Split(key);
    JoinUndoesSplit(key);
  }

  /** A string with a separator in it breaks at its last one. */
  lemma {:induction false} LastSeparator(s: string) returns (before: string, after: string)
    requires SEP in s
    ensures s == before + [SEP] + after && SEP !in after
  {
    var last := |s| - 1;
    if s[last] == SEP {
      before, after := s[..last], [];
    } else {
      before, after := LastSeparator(s[..last]);
      after := after + [s[last]];
      assert s == s[..last] + [s[last]];
    }
  }

  /** Both halves of a model key come back exactly when the model type holds no separator;
      the no-model half may hold any number of them. */
  lemma RecoveredExactlyForPlainTypes(key: string, modelType: string)
    ensures GetNoModelKey(GetWithModelKey(key, modelType)) == key <==> SEP !in modelType
    ensures GetModelType(GetWithModelKey(key, modelType)) == modelType <==> SEP !in modelType
  {
    if SEP in modelType {
      var before, after := LastSeparator(modelType);
      assert GetWithModelKey(key, modelType) == GetWithModelKey(key + [SEP] + before, after);
      RecoverPlainType(key + [SEP] + before, after);
    } else {
      RecoverPlainType(key, modelType);
    }
  }

  // ---------------------------------------------------------------- metric keys

  /** Reads a metric key back: the first piece, the second piece, and the rest. */
  function ParseNoModelKey(key: string): Option<(string, string, string)> {
    var strs := Split(key);
    if |strs| < 3 then None else Some((strs[0], strs[1], Join(strs[2..])))
  }

  lemma SplitOfThree(a: string, b: string, c: string)
    ensures Split(a + [SEP] + b + [SEP] + c) == Split(a) + Split(b) + Split(c)
  {
    SplitAtSeparator(a + [SEP] + b, c);
    SplitAtSeparator(a, b);
  }

  /** The first piece is a separator-free prefix. */
  lemma {:induction false} FirstPiece(s: string)
    ensures SEP !in Split(s)[0]
    ensures Split(s)[0] <= s
  {
    if s != [] && s[0] != SEP {
      FirstPiece(s[1..]);
    }
  }

  /** A metric key reads back as its own three fields exactly when the name and the unit
      hold no separator; the query may hold any number. */
  lemma ParsedExactlyForPlainNameAndUnit(m: Metric)
    ensures ParseNoModelKey(NoModelKey(m)) == Some((m.name, m.unit, m.query))
       <==> SEP !in m.name && SEP !in m.unit
  {
    SplitOfThree(m.name, m.unit, m.query);
    var strs := Split(NoModelKey(m));
    assert strs == Split(m.name) + Split(m.unit) + Split(m.query);
    assert |strs| >= 3;
    if SEP in m.name {
      FirstPiece(m.name);
      assert strs[0] == Split(m.name)[0];
    } else {
      SplitOfPlain(m.name);
      assert strs[0] == m.name;
      FirstPiece(m.unit);
      assert strs[1] == Split(m.unit)[0];
      if SEP !in m.unit {
        SplitOfPlain(m.unit);
        assert strs[2..] == Split(m.query);
        JoinUndoesSplit(m.query);
      }
    }
  }

  /** Metric keys are injective on (name, unit, query) for separator-free names and units. */
  lemma NoModelKeyInjective(a: Metric, b: Metric)
    requires SEP !in a.name && SEP !in a.unit && SEP !in b.name && SEP !in b.unit
    requires NoModelKey(a) == NoModelKey(b)
    ensures a.name == b.name && a.unit == b.unit && a.query == b.query
  {
    ParsedExactlyForPlainNameAndUnit(a);
    ParsedExactlyForPlainNameAndUnit(b);
  }

  /** Every metric shares its key with exactly one plain-named, plain-united metric, so a
      metric whose name or unit holds a separator always collides with a different one. */
  lemma KeyClassHasAPlainMetric(m: Metric) returns (plain: Metric)
    ensures NoModelKey(plain) == NoModelKey(m)
    ensures SEP !in plain.name && SEP !in plain.unit
    ensures plain == m <==> SEP !in m.name && SEP !in m.unit
  {
    var key := NoModelKey(m);
    var strs := Split(key);
    SplitOfThree(m.name, m.unit, m.query);
    FirstPiece(key);
    JoinUndoesSplit(key);
    assert strs[1..][1..] == strs[2..];
    assert key == strs[0] + [SEP] + Join(strs[1..]);
    assert Join(strs[1..]) == strs[1] + [SEP] + Join(strs[2..]);
    TailPieces(strs, key);
    plain := m.(name := strs[0], unit := strs[1], query := Join(strs[2..]));
    ParsedExactlyForPlainNameAndUnit(m);
  }

  /** The second piece is separator-free too. */
  lemma TailPieces(strs: seq<string>, key: string)
    requires strs == Split(key) && |strs| >= 2
    ensures SEP !in strs[1]
  {
    FirstPiece(key);
    JoinUndoesSplit(key);
    var rest := Join(strs[1..]);
    SplitAtSeparator(strs[0], rest);
    SplitOfPlain(strs[0]);
    assert Split(key)[1..] == Split(rest);
    FirstPiece(rest);
  }
}
