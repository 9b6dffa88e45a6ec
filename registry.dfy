/** The identifier registry of one processing pass (`processState.ids` with
    `uniqueID`): which element ids are taken, and how a requested id is
    resolved against them. The imperative `uniqueID` loop lives in the
    `Augmenter` module and is proved to compute `Reserve`. */
module Registry {
  import opened Decimal

  /** The collision candidate `fmt.Sprintf("%s-%d", id, k)`. */
  function Suffixed(id: string, k: nat): string {
    id + "-" + Itoa(k)
  }

  lemma SuffixedInjective(id: string, j: nat, k: nat)
    requires Suffixed(id, j) == Suffixed(id, k)
    ensures j == k
  {
    assert Itoa(j) == Suffixed(id, j)[|id| + 1..];
    assert Itoa(k) == Suffixed(id, k)[|id| + 1..];
    ItoaInjective(j, k);
  }

  /** An upper bound on the length of every reserved id. */
  ghost function MaxLen(ids: set<string>): (m: nat)
    ensures forall x :: x in ids ==> |x| <= m
  {
    if ids == {} then 0
    else
      var x :| x in ids;
      var m := MaxLen(ids - {x});
      if |x| > m then |x| else m
  }

  /** A taken candidate has a suffix below 10^MaxLen(ids): longer candidates
      cannot be taken. This bounds the search of `uniqueID`. */
  lemma SuffixBound(ids: set<string>, id: string, k: nat)
    requires Suffixed(id, k) in ids
    ensures k < Pow10(MaxLen(ids))
  {
    if k >= Pow10(MaxLen(ids)) {
      ItoaLong(k, MaxLen(ids));
    }
  }

  /** The first free suffix from `k` on. */
  function FreeSuffix(ids: set<string>, id: string, k: nat): (r: nat)
    requires k >= 1
    ensures r >= k && Suffixed(id, r) !in ids
    ensures forall j :: k <= j < r ==> Suffixed(id, j) in ids
    decreases Pow10(MaxLen(ids)) - k
  {
    if Suffixed(id, k) !in ids then k
    else
      SuffixBound(ids, id, k);
      FreeSuffix(ids, id, k + 1)
  }

  /** The id `uniqueID` hands out: the request itself when free, otherwise the
      request with the smallest free suffix `-1`, `-2`, ... */
  function Reserve(ids: set<string>, id: string): (r: string)
    ensures r !in ids
  {
    if id !in ids then id else Suffixed(id, FreeSuffix(ids, id, 1))
  }

  /** Reserve keeps a free request and otherwise picks the least free suffix. */
  lemma ReserveLeast(ids: set<string>, id: string)
    ensures id !in ids ==> Reserve(ids, id) == id
    ensures id in ids ==>
      exists k :: k >= 1 && Reserve(ids, id) == Suffixed(id, k) &&
        forall j :: 1 <= j < k ==> Suffixed(id, j) in ids
    ensures Reserve(ids, id) == id <==> id !in ids
  {
    if id in ids {
      var k := FreeSuffix(ids, id, 1);
      assert |Suffixed(id, k)| > |id|;
    }
  }

  /** The ids handed out by the first `n` requests for `id` on a fresh
      registry: `id`, `id-1`, ..., `id-(n-1)`. */
  function Issued(id: string, n: nat): set<string>
    requires n >= 1
  {
    {id} + set k | 1 <= k < n :: Suffixed(id, k)
  }

  /** Requesting `id` once more after `n` requests yields `id-n`, and the
      registry grows by exactly that id. */
  lemma ReserveRepeated(id: string, n: nat)
    requires n >= 1
    ensures Reserve(Issued(id, n), id) == Suffixed(id, n)
    ensures Issued(id, n) + {Suffixed(id, n)} == Issued(id, n + 1)
  {
    var ids := Issued(id, n);
    assert id in ids;
    assert Suffixed(id, n) !in ids by {
      if Suffixed(id, n) in ids {
        assert |Suffixed(id, n)| > |id|;
        var k :| 1 <= k < n && Suffixed(id, k) == Suffixed(id, n);
        SuffixedInjective(id, k, n);
      }
    }
    var r := FreeSuffix(ids, id, 1);
    assert r <= n;
  }

  /** The three-request example: "intro" resolves to "intro", "intro-1",
      "intro-2". */
  lemma ReserveIntroThrice()
    ensures Reserve({}, "intro") == "intro"
    ensures Reserve({"intro"}, "intro") == "intro-1"
    ensures Reserve({"intro", "intro-1"}, "intro") == "intro-2"
  {
    assert Issued("intro", 1) == {"intro"};
    ReserveRepeated("intro", 1);
    assert Suffixed("intro", 1) == "intro-1";
    assert Issued("intro", 2) == {"intro", "intro-1"};
    ReserveRepeated("intro", 2);
    assert Suffixed("intro", 2) == "intro-2";
  }
}
