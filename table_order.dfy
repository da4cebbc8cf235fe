/**
 * The order and contents of `unicodeHexBySlug` and of the glyph elements:
 * included icons appear in catalogue order, each with its own reference and
 * colour, when slugs are distinct.
 */
module TableOrder {
  import opened BuildConfig
  import opened SvgFont

  /** The slugs assigned by `items`, in order. */
  function Slugs(items: seq<(string, Entry)>): seq<string> {
    seq(|items|, k requires 0 <= k < |items| => items[k].0)
  }

  lemma SlugsOfPrefix(items: seq<(string, Entry)>)
    requires |items| > 0
    ensures Slugs(items) == Slugs(items[..|items| - 1]) + [items[|items| - 1].0]
  {
    var n := |items|;
    assert forall k :: 0 <= k < n - 1 ==> Slugs(items[..n - 1])[k] == items[k].0;
  }

  /**
   * Assigning distinct slugs one after the other lists them in assignment
   * order, each with the entry assigned to it.
   */
  lemma {:induction false} TableOfDistinct(items: seq<(string, Entry)>)
    requires DistinctKeys(Slugs(items))
    ensures TableOf(items).keys == Slugs(items)
    ensures forall k :: 0 <= k < |items| ==>
      items[k].0 in TableOf(items).entries && TableOf(items).entries[items[k].0] == items[k].1
  {
    if |items| > 0 {
      var n := |items|;
      var init, last := items[..n - 1], items[n - 1];
      var slugs := Slugs(items);
      SlugsOfPrefix(items);
      assert DistinctKeys(Slugs(init)) by {
        forall k, l | 0 <= k < l < |init|
          ensures Slugs(init)[k] != Slugs(init)[l]
        {
          assert Slugs(init)[k] == slugs[k] && Slugs(init)[l] == slugs[l];
        }
      }
      TableOfDistinct(init);
      TableOfKeys(init);
      var t := TableOf(init);
      assert last.0 !in t.keys by {
        forall k | 0 <= k < |t.keys|
          ensures t.keys[k] != last.0
        {
          assert k < n - 1 && t.keys[k] == Slugs(init)[k] == init[k].0 == items[k].0 == slugs[k];
          assert slugs[k] != slugs[n - 1] == last.0;
        }
      }
      assert TableOf(items) == SlugTable(t.keys + [last.0], t.entries[last.0 := last.1]);
      forall k | 0 <= k < n - 1
        ensures items[k].0 in TableOf(items).entries && TableOf(items).entries[items[k].0] == items[k].1
      {
        assert items[k] == init[k];
        assert items[k].0 == slugs[k] != slugs[n - 1] == last.0;
      }
    }
  }

  /** No two icons of the catalogue share a slug. */
  predicate DistinctSlugs(icons: seq<Icon>) {
    forall i, j :: 0 <= i < j < |icons| ==> icons[i].slug != icons[j].slug
  }

  /**
   * With distinct slugs, the table after the first `n` icons lists the
   * included icons in catalogue order, each mapped to its own reference and
   * its own colour.
   */
  lemma TableFollowsCatalogue(icons: seq<Icon>, cfg: Config, n: nat)
    requires n <= |icons| && DistinctSlugs(icons)
    ensures var inc, t := IncludedIndices(icons, cfg, n), Table(icons, cfg, n);
      && |t.keys| == |inc|
      && forall k :: 0 <= k < |inc| ==>
        && t.keys[k] == icons[inc[k]].slug
        && icons[inc[k]].slug in t.entries
        && t.entries[icons[inc[k]].slug] == Entry(ReferenceAt(icons, cfg, n, k), icons[inc[k]].hex)
  {
    var inc := IncludedIndices(icons, cfg, n);
    var items := TableItems(icons, cfg, n);
    IncludedIndicesExact(icons, cfg, n);
    assert DistinctKeys(Slugs(items)) by {
      forall k, l | 0 <= k < l < |items|
        ensures Slugs(items)[k] != Slugs(items)[l]
      {
        assert Slugs(items)[k] == icons[inc[k]].slug && Slugs(items)[l] == icons[inc[l]].slug;
        assert inc[k] < inc[l];
      }
    }
    TableOfDistinct(items);
    forall k | 0 <= k < |inc|
      ensures Table(icons, cfg, n).keys[k] == icons[inc[k]].slug
    {
      assert Slugs(items)[k] == items[k].0;
    }
  }
}
