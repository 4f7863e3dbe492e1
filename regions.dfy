/**
 * The tree-planting destination: `get_tree_site`, which picks an illustrative coordinate from
 * the postcode prefix, and the page's separate chain that picks the region's display label.
 * Both are ordered prefix tests where the first match wins.
 */
module Regions {
  import opened Text
  import opened Geo

  /** The `tree_sites` table. */
  const Northumberland: Coordinate := Coordinate(55.2, -1.6)
  const Yorkshire: Coordinate := Coordinate(53.9, -1.1)
  const London: Coordinate := Coordinate(51.5, -0.1)
  const Manchester: Coordinate := Coordinate(53.5, -2.2)

  /** `get_tree_site(postcode)`: the postcode is lowered and matched against the prefixes in order. */
  function GetTreeSite(postcode: string): (r: Coordinate)
    ensures r in {Northumberland, Yorkshire, London, Manchester, Fallback}
  {
    var postcode := Lower(postcode);
    if "ne" <= postcode then Northumberland
    else if "yo" <= postcode then Yorkshire
    else if "n1" <= postcode || "e" <= postcode then London
    else if "m" <= postcode then Manchester
    else Fallback
  }

  /**
   * Which site a postcode gets, as the prefixes of its lowered form decide it: each site
   * exactly on its own prefix once every earlier prefix has failed.
   */
  lemma TreeSitePriority(postcode: string)
    ensures var p := Lower(postcode);
      && (GetTreeSite(postcode) == Northumberland <==> "ne" <= p)
      && (GetTreeSite(postcode) == Yorkshire <==> !("ne" <= p) && "yo" <= p)
      && (GetTreeSite(postcode) == London <==> !("ne" <= p) && !("yo" <= p) && ("n1" <= p || "e" <= p))
      && (GetTreeSite(postcode) == Manchester <==>
            !("ne" <= p) && !("yo" <= p) && !("n1" <= p || "e" <= p) && "m" <= p)
      && (GetTreeSite(postcode) == Fallback <==>
            !("ne" <= p) && !("yo" <= p) && !("n1" <= p || "e" <= p) && !("m" <= p))
  {
  }

  /** The page's region label, computed from the already-normalised postcode. */
  function RegionLabel(postcode: string): (r: string)
    ensures r in {"Northumberland", "Yorkshire", "London area", "Manchester area", "your region"}
  {
    if "ne" <= postcode then "Northumberland"
    else if "yo" <= postcode then "Yorkshire"
    else if "n" <= postcode || "e" <= postcode then "London area"
    else if "m" <= postcode then "Manchester area"
    else "your region"
  }

  /**
   * For a postcode without capitals (the page's normalised one), the label and the site tell the
   * same story except in one place: a postcode that starts with "n" but neither with "ne" nor
   * with "n1" is labelled "London area" while its trees go to the fallback coordinate.
   */
  lemma {:induction false} LabelMatchesSite(postcode: string)
    requires NoUpper(postcode)
    ensures RegionLabel(postcode) == "Northumberland" <==> GetTreeSite(postcode) == Northumberland
    ensures RegionLabel(postcode) == "Yorkshire" <==> GetTreeSite(postcode) == Yorkshire
    ensures RegionLabel(postcode) == "Manchester area" <==> GetTreeSite(postcode) == Manchester
    ensures GetTreeSite(postcode) == London ==> RegionLabel(postcode) == "London area"
    ensures RegionLabel(postcode) == "your region" ==> GetTreeSite(postcode) == Fallback
    ensures RegionLabel(postcode) == "London area" && GetTreeSite(postcode) != London
            <==> "n" <= postcode && !("ne" <= postcode) && !("n1" <= postcode)
    ensures RegionLabel(postcode) == "London area" && GetTreeSite(postcode) != London
            ==> GetTreeSite(postcode) == Fallback
  {
    assert Lower(postcode) == postcode;
    TreeSitePriority(postcode);
    if postcode != [] {
      assert ("n" <= postcode) == (postcode[0] == 'n');
      assert ("e" <= postcode) == (postcode[0] == 'e');
      assert "yo" <= postcode ==> postcode[0] == 'y';
      assert "ne" <= postcode ==> postcode[0] == 'n';
      assert "n1" <= postcode ==> postcode[0] == 'n';
    }
  }
}
