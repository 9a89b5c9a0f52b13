/**
 * The role set of lib/util: a Roles value is a list of role ARNs that Dedup
 * turns into its canonical form (ascending, without duplicates), and
 * parsePolicy extracts the roles an IAM policy document lets its holder
 * assume. Policy documents are taken as already decoded JSON values.
 */
module Roles {
  import opened Wrappers

  // ---------------------------------------------------------------------------
  // The order of role names
  // ---------------------------------------------------------------------------

  /**
   * Lexicographic order on strings, as Go's `<` on strings and sort.Strings
   * use it (byte-wise; on well-formed UTF-8 the byte order and the order of
   * code points, which is what comparing chars gives, agree).
   */
  predicate Less(a: string, b: string)
    decreases |a|
  {
    if |a| == 0 then |b| > 0
    else if |b| == 0 then false
    else if a[0] != b[0] then a[0] < b[0]
    else Less(a[1..], b[1..])
  }

  lemma {:induction false} LessIrreflexive(a: string)
    ensures !Less(a, a)
    decreases |a|
  {
    if |a| > 0 {
      LessIrreflexive(a[1..]);
    }
  }

  lemma {:induction false} LessTransitive(a: string, b: string, c: string)
    requires Less(a, b) && Less(b, c)
    ensures Less(a, c)
    decreases |a|
  {
    if |a| > 0 && a[0] == b[0] && b[0] == c[0] {
      LessTransitive(a[1..], b[1..], c[1..]);
    }
  }

  lemma {:induction false} LessTotal(a: string, b: string)
    ensures a == b || Less(a, b) || Less(b, a)
    decreases |a|
  {
    if |a| > 0 && |b| > 0 && a[0] == b[0] {
      LessTotal(a[1..], b[1..]);
      if a[1..] == b[1..] {
        assert a == [a[0]] + a[1..] && b == [b[0]] + b[1..];
      }
    }
  }

  lemma {:induction false} LessAsymmetric(a: string, b: string)
    requires Less(a, b)
    ensures !Less(b, a)
    decreases |a|
  {
    if |a| > 0 && a[0] == b[0] {
      LessAsymmetric(a[1..], b[1..]);
    }
  }

  // ---------------------------------------------------------------------------
  // Roles.Dedup
  // ---------------------------------------------------------------------------

  /** Ascending without repetition: the invariant of a deduplicated role set. */
  predicate StrictlySorted(s: seq<string>) {
    forall i, j :: 0 <= i < j < |s| ==> Less(s[i], s[j])
  }

  function Elements(s: seq<string>): set<string> {
    set x | x in s
  }

  lemma StrictlySortedDistinct(s: seq<string>)
    requires StrictlySorted(s)
    ensures forall i, j :: 0 <= i < j < |s| ==> s[i] != s[j]
  {
    forall i, j | 0 <= i < j < |s|
      ensures s[i] != s[j]
    {
      LessIrreflexive(s[i]);
    }
  }

  lemma PrependSorted(x: string, s: seq<string>)
    requires StrictlySorted(s)
    requires forall y :: y in s ==> Less(x, y)
    ensures StrictlySorted([x] + s)
  {
    var t := [x] + s;
    forall i, j | 0 <= i < j < |t|
      ensures Less(t[i], t[j])
    {
      if i == 0 {
        assert t[j] == s[j - 1];
      } else {
        assert t[i] == s[i - 1] && t[j] == s[j - 1];
      }
    }
  }

  /** Places `x` in a strictly sorted sequence, leaving it unchanged when `x` is there already. */
  function Insert(x: string, s: seq<string>): (r: seq<string>)
    requires StrictlySorted(s)
    ensures StrictlySorted(r)
    ensures Elements(r) == Elements(s) + {x}
    decreases |s|
  {
    if |s| == 0 then [x]
    else if x == s[0] then s
    else if Less(x, s[0]) then
      assert forall y :: y in s ==> Less(x, y) by {
        forall y | y in s ensures Less(x, y) {
          if y != s[0] {
            var j :| 0 <= j < |s| && s[j] == y;
            LessTransitive(x, s[0], y);
          }
        }
      }
      PrependSorted(x, s);
      [x] + s
    else
      LessTotal(x, s[0]);
      var t := Insert(x, s[1..]);
      assert s == [s[0]] + s[1..];
      assert forall y :: y in t ==> Less(s[0], y) by {
        forall y | y in t ensures Less(s[0], y) {
          assert y in Elements(t);
          if y != x {
            var j :| 0 <= j < |s[1..]| && s[1..][j] == y;
            assert s[j + 1] == y;
          }
        }
      }
      PrependSorted(s[0], t);
      assert Elements(s) == {s[0]} + Elements(s[1..]);
      assert Elements([s[0]] + t) == {s[0]} + Elements(t);
      [s[0]] + t
  }

  /**
   * Roles.Dedup: the roles of `xs`, each once, in ascending order. Empty and
   * nil input are both the empty sequence here.
   */
  function Dedup(xs: seq<string>): (r: seq<string>)
    ensures StrictlySorted(r)
    ensures Elements(r) == Elements(xs)
    decreases |xs|
  {
    if |xs| == 0 then []
    else
      assert xs == xs[..|xs| - 1] + [xs[|xs| - 1]];
      Insert(xs[|xs| - 1], Dedup(xs[..|xs| - 1]))
  }

  /** No role appears twice in a deduplicated set. */
  lemma DedupNoDuplicates(xs: seq<string>)
    ensures forall i, j :: 0 <= i < j < |Dedup(xs)| ==> Dedup(xs)[i] != Dedup(xs)[j]
  {
    StrictlySortedDistinct(Dedup(xs));
  }

  lemma ElementsEmpty(s: seq<string>)
    ensures Elements(s) == {} <==> |s| == 0
  {
    if |s| > 0 {
      assert s[0] in Elements(s);
    }
  }

  /** A strictly sorted sequence is determined by the set of its elements. */
  lemma {:induction false} SortedBySet(a: seq<string>, b: seq<string>)
    requires StrictlySorted(a) && StrictlySorted(b)
    requires Elements(a) == Elements(b)
    ensures a == b
    decreases |a|
  {
    ElementsEmpty(a);
    ElementsEmpty(b);
    if |a| > 0 {
      assert a[0] in Elements(b);
      assert |b| > 0;
      assert b[0] in Elements(a);
      if a[0] != b[0] {
        var k :| 0 <= k < |b| && b[k] == a[0];
        var m :| 0 <= m < |a| && a[m] == b[0];
        assert Less(b[0], a[0]);
        assert Less(a[0], b[0]);
        LessAsymmetric(a[0], b[0]);
      }
      StrictlySortedDistinct(a);
      StrictlySortedDistinct(b);
      assert Elements(a[1..]) == Elements(a) - {a[0]} by {
        assert a == [a[0]] + a[1..];
      }
      assert Elements(b[1..]) == Elements(b) - {b[0]} by {
        assert b == [b[0]] + b[1..];
      }
      SortedBySet(a[1..], b[1..]);
      assert a == [a[0]] + a[1..] && b == [b[0]] + b[1..];
    }
  }

  /**
   * The role set depends only on which roles occur, not on their order or how
   * often they repeat; in particular Dedup is idempotent.
   */
  lemma DedupCanonical(xs: seq<string>, ys: seq<string>)
    requires Elements(xs) == Elements(ys)
    ensures Dedup(xs) == Dedup(ys)
  {
    SortedBySet(Dedup(xs), Dedup(ys));
  }

  lemma DedupIdempotent(xs: seq<string>)
    ensures Dedup(Dedup(xs)) == Dedup(xs)
  {
    DedupCanonical(Dedup(xs), xs);
  }

  /** Any strictly sorted sequence over the same roles is the Dedup result. */
  lemma DedupUnique(xs: seq<string>, r: seq<string>)
    requires StrictlySorted(r) && Elements(r) == Elements(xs)
    ensures Dedup(xs) == r
  {
    SortedBySet(Dedup(xs), r);
  }

  // ---------------------------------------------------------------------------
  // MockRoleGetter
  // ---------------------------------------------------------------------------

  /** The test double of a RoleGetter: a fixed list whose Roles() is its Dedup. */
  datatype MockRoleGetter = MockRoleGetter(r: seq<string>) {
    function Roles(): (roles: seq<string>)
      ensures StrictlySorted(roles)
      ensures forall x :: x in roles <==> x in r
    {
      var d := Dedup(r);
      assert forall x :: x in d <==> x in Elements(r);
      d
    }
  }

  /** The documented example: duplicates are dropped and the roles come out ascending. */
  lemma ExampleRoleGetter()
    ensures MockRoleGetter(["mock3", "mock2", "mock1", "mock2", "mock4", "mock1"]).Roles()
            == ["mock1", "mock2", "mock3", "mock4"]
  {
    var xs := ["mock3", "mock2", "mock1", "mock2", "mock4", "mock1"];
    var r := ["mock1", "mock2", "mock3", "mock4"];
    assert Less("mock1", "mock2") && Less("mock2", "mock3") && Less("mock3", "mock4");
    assert StrictlySorted(r) by {
      forall i, j | 0 <= i < j < |r| ensures Less(r[i], r[j]) {
        if j == i + 1 {
        } else if j == i + 2 {
          LessTransitive(r[i], r[i + 1], r[j]);
        } else {
          LessTransitive(r[0], r[1], r[2]);
          LessTransitive(r[0], r[2], r[3]);
        }
      }
    }
    assert Elements(r) == Elements(xs);
    DedupUnique(xs, r);
  }

  /** An empty (or nil) role list gives an empty role set. */
  lemma EmptyRoleGetter()
    ensures MockRoleGetter([]).Roles() == []
  {
  }

  // ---------------------------------------------------------------------------
  // parsePolicy
  // ---------------------------------------------------------------------------

  /** A decoded JSON value; numbers are kept as integers, their value is never read. */
  datatype Json =
    | JNull
    | JBool(b: bool)
    | JNumber(n: int)
    | JString(str: string)
    | JArray(items: seq<Json>)
    | JObject(fields: map<string, Json>)

  /** The policy text handed to parsePolicy: either it decodes as JSON or it does not. */
  datatype PolicyText = Undecodable | Decoded(value: Json)

  const AssumeRoleAction: string := "sts:AssumeRole"

  /** The entries of the document's Statement array; none when the document has no such array. */
  function Statements(doc: Json): seq<Json> {
    if doc.JObject? && "Statement" in doc.fields && doc.fields["Statement"].JArray?
    then doc.fields["Statement"].items
    else []
  }

  /** An Action that is "sts:AssumeRole" or a list holding it. */
  predicate AllowsAssumeRole(action: Json) {
    match action
    case JString(a) => a == AssumeRoleAction
    case JArray(items) => JString(AssumeRoleAction) in items
    case _ => false
  }

  /** The string members of a JSON list, in order. */
  function StringItems(items: seq<Json>): (r: seq<string>)
    ensures forall x :: x in r <==> JString(x) in items
    decreases |items|
  {
    if |items| == 0 then []
    else
      assert items == items[..|items| - 1] + [items[|items| - 1]];
      var front := StringItems(items[..|items| - 1]);
      match items[|items| - 1]
      case JString(s) => front + [s]
      case _ => front
  }

  /** A Resource given as one string or as a list of strings. */
  function ResourceNames(resource: Json): seq<string> {
    match resource
    case JString(r) => [r]
    case JArray(items) => StringItems(items)
    case _ => []
  }

  /** A statement object with Effect "Allow", an Action granting sts:AssumeRole and a Resource. */
  predicate Grants(st: Json) {
    && st.JObject?
    && "Effect" in st.fields && st.fields["Effect"] == JString("Allow")
    && "Action" in st.fields && AllowsAssumeRole(st.fields["Action"])
    && "Resource" in st.fields
  }

  /** What one statement contributes; anything that is not a granting statement contributes nothing. */
  function StatementRoles(st: Json): seq<string> {
    if Grants(st) then ResourceNames(st.fields["Resource"]) else []
  }

  /** The contributions of all statements, in document order. */
  function CollectRoles(statements: seq<Json>): (r: seq<string>)
    ensures forall x :: x in r <==> exists st :: st in statements && x in StatementRoles(st)
    decreases |statements|
  {
    if |statements| == 0 then []
    else
      var n := |statements|;
      assert statements == statements[..n - 1] + [statements[n - 1]];
      CollectRoles(statements[..n - 1]) + StatementRoles(statements[n - 1])
  }

  /**
   * parsePolicy: a nil document is an error; text that does not decode, or a
   * document without a Statement array, yields no roles; otherwise the
   * Resources of every granting statement, deduplicated and sorted.
   */
  function ParsePolicy(doc: Option<PolicyText>): (r: Result<seq<string>, string>)
    ensures r.Failure? <==> doc.None?
    ensures r.Success? ==> StrictlySorted(r.value)
    ensures r.Success? && doc.value.Undecodable? ==> r.value == []
    ensures r.Success? && doc.value.Decoded? ==>
              forall x :: x in r.value <==>
                exists st :: st in Statements(doc.value.value) && Grants(st)
                             && x in ResourceNames(st.fields["Resource"])
  {
    match doc
    case None => Failure("nil policy document")
    case Some(Undecodable) => Success([])
    case Some(Decoded(v)) =>
      var r := Dedup(CollectRoles(Statements(v)));
      assert forall x :: x in r <==> x in Elements(CollectRoles(Statements(v)));
      Success(r)
  }

  /** A document that is not a JSON object yields no roles and no error. */
  lemma NonObjectDocument(v: Json)
    requires !v.JObject?
    ensures ParsePolicy(Some(Decoded(v))) == Success([])
  {
  }

  /** Statements that are not objects, or objects missing a field, are skipped. */
  lemma {:induction false} MalformedStatementsSkipped(statements: seq<Json>)
    requires forall st :: st in statements ==>
               !st.JObject? || "Effect" !in st.fields || "Action" !in st.fields || "Resource" !in st.fields
    ensures CollectRoles(statements) == []
    decreases |statements|
  {
    if |statements| > 0 {
      var n := |statements|;
      assert statements[n - 1] in statements;
      assert forall st :: st in statements[..n - 1] ==> st in statements;
      MalformedStatementsSkipped(statements[..n - 1]);
    }
  }

  /** The statements of the "good" policy document of the role getter's tests. */
  const GoodStatements: seq<Json> := [
    JObject(map["Effect" := JString("None")]),
    JObject(map["Effect" := JString("Deny"), "Action" := JString("sts:AssumeRole")]),
    JObject(map["Effect" := JString("Allow"),
                "Action" := JArray([JString("sts:AssumeRole"), JString("s3:*")]),
                "Resource" := JString("a")]),
    JObject(map["Effect" := JString("Allow"), "Action" := JString("sts:AssumeRole"),
                "Resource" := JString("x")]),
    JObject(map["Effect" := JString("Allow"), "Action" := JString("sts:AssumeRole"),
                "Resource" := JArray([JString("y"), JString("z")])])
  ]

  /** What each statement of the "good" document contributes, and what its first n collect. */
  const GoodStatementRoleLists: seq<seq<string>> := [[], [], ["a"], ["x"], ["y", "z"]]
  const GoodPrefixRoles: seq<seq<string>> := [[], [], ["a"], ["a", "x"], ["a", "x", "y", "z"]]

  lemma GoodStatementRoles(i: nat)
    requires i < |GoodStatements|
    ensures StatementRoles(GoodStatements[i]) == GoodStatementRoleLists[i]
  {
    if i == 4 {
      assert StringItems([JString("y"), JString("z")]) == ["y", "z"] by {
        assert [JString("y"), JString("z")][..1] == [JString("y")];
      }
    }
  }

  /** Each collected prefix extends the one before it by the next statement's roles. */
  lemma GoodPrefixRolesStep(n: nat)
    requires 2 <= n <= |GoodPrefixRoles|
    ensures GoodPrefixRoles[n - 1] == GoodPrefixRoles[n - 2] + GoodStatementRoleLists[n - 1]
  {
  }

  /** CollectRoles unfolded once: the last statement's contribution comes last. */
  lemma CollectLast(statements: seq<Json>)
    requires |statements| > 0
    ensures CollectRoles(statements)
            == CollectRoles(statements[..|statements| - 1]) + StatementRoles(statements[|statements| - 1])
  {
  }

  /** What the first n statements of the "good" document collect. */
  lemma {:induction false} GoodPrefixCollected(n: nat)
    requires 1 <= n <= |GoodStatements|
    ensures CollectRoles(GoodStatements[..n]) == GoodPrefixRoles[n - 1]
  {
    var prefix := GoodStatements[..n];
    CollectLast(prefix);
    GoodStatementRoles(n - 1);
    if n == 1 {
      assert prefix[..0] == [];
    } else {
      assert prefix[..n - 1] == GoodStatements[..n - 1];
      GoodPrefixCollected(n - 1);
      GoodPrefixRolesStep(n);
    }
  }

  lemma GoodCollected()
    ensures CollectRoles(GoodStatements) == ["a", "x", "y", "z"]
  {
    GoodPrefixCollected(|GoodStatements|);
    assert GoodStatements[..|GoodStatements|] == GoodStatements;
  }

  /** ParsePolicy of a decoded document, unfolded once. */
  lemma ParsePolicyDecoded(v: Json)
    ensures ParsePolicy(Some(Decoded(v))) == Success(Dedup(CollectRoles(Statements(v))))
  {
  }

  lemma GoodRolesSorted()
    ensures StrictlySorted(["a", "x", "y", "z"])
  {
    assert Less("a", "x") && Less("x", "y") && Less("y", "z");
    assert Less("a", "y") && Less("a", "z") && Less("x", "z");
  }

  /** The "good" document: only the Allow statements granting sts:AssumeRole contribute. */
  lemma GoodDocument()
    ensures ParsePolicy(Some(Decoded(JObject(map["Statement" := JArray(GoodStatements)]))))
            == Success(["a", "x", "y", "z"])
  {
    var doc := JObject(map["Statement" := JArray(GoodStatements)]);
    var collected := ["a", "x", "y", "z"];
    ParsePolicyDecoded(doc);
    assert Statements(doc) == GoodStatements;
    GoodCollected();
    assert CollectRoles(Statements(doc)) == collected;
    GoodRolesSorted();
    DedupUnique(collected, collected);
    assert Dedup(CollectRoles(Statements(doc))) == collected;
  }

  /** A Statement list of bare strings yields no roles and no error. */
  lemma StringArrayDocument()
    ensures ParsePolicy(Some(Decoded(JObject(map["Statement" := JArray([JString("a"), JString("b"), JString("c")])]))))
            == Success([])
  {
  }

  /** Statement objects that lack the needed fields yield no roles and no error. */
  lemma BadMapDocument()
    ensures ParsePolicy(Some(Decoded(JObject(map["Statement" := JArray([JObject(map[]), JObject(map["b" := JNumber(1)])])]))))
            == Success([])
  {
    MalformedStatementsSkipped([JObject(map[]), JObject(map["b" := JNumber(1)])]);
  }

  /** A nil document is an error; empty text, which does not decode, is an empty role set. */
  lemma NilAndEmptyDocuments()
    ensures ParsePolicy(None).Failure?
    ensures ParsePolicy(Some(Undecodable)) == Success([])
  {
  }
}
