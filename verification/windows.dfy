/**
 `get_windows_info`: the edition, version and build from `platform.win32_ver()`, the product
 id, the masked product key, the last update time and the installation date, in that order.
 */
module Windows {
  import opened Wrappers
  import opened FieldMap
  import opened ProductKey
  import opened Scrapers

  /** The field names of the Windows section, in the order the report prints them. */
  const WindowsFieldNames: seq<string> := [
    "Windows Edition", "Windows Version", "Windows Build", "Product ID",
    "Product Key", "Last Update", "Installation Date" ]

  /**
   The OS/licensing fields, with every host read given as an input: the seven names in order,
   each holding the value of its own probe.
   */
  function WindowsInfo(
    winVer: (string, string, string),
    productId: Option<string>,
    digitalProductId: Option<seq<byte>>,
    updateRun: CommandResult,
    installRun: CommandResult): (r: Fields)
    ensures Keys(r) == WindowsFieldNames
    ensures Get(r, "Windows Edition") == Some(winVer.0)
    ensures Get(r, "Windows Version") == Some(winVer.1)
    ensures Get(r, "Windows Build") == Some(winVer.2)
    ensures Get(r, "Product ID") == Some(productId.GetOr("Not available"))
    ensures Get(r, "Product Key") == Some(MaskKey(ProductKeyOf(digitalProductId)))
    ensures Get(r, "Last Update") == Some(LastUpdate(updateRun))
    ensures Get(r, "Installation Date") == Some(InstallDate(installRun))
  {
    var values := [winVer.0, winVer.1, winVer.2, productId.GetOr("Not available"),
                   MaskKey(ProductKeyOf(digitalProductId)), LastUpdate(updateRun), InstallDate(installRun)];
    SevenFields(values);
    Zip(WindowsFieldNames, values)
  }

  /** Each of the seven names is paired with the value at its own position. */
  lemma SevenFields(values: seq<string>)
    requires |values| == 7
    ensures var r := Zip(WindowsFieldNames, values);
            && Keys(r) == WindowsFieldNames
            && Get(r, "Windows Edition") == Some(values[0])
            && Get(r, "Windows Version") == Some(values[1])
            && Get(r, "Windows Build") == Some(values[2])
            && Get(r, "Product ID") == Some(values[3])
            && Get(r, "Product Key") == Some(values[4])
            && Get(r, "Last Update") == Some(values[5])
            && Get(r, "Installation Date") == Some(values[6])
  {
    WindowsNamesDistinct();
    ZipGet(WindowsFieldNames, values);
    var n := WindowsFieldNames;
    assert n[0] == "Windows Edition" && n[1] == "Windows Version" && n[2] == "Windows Build";
    assert n[3] == "Product ID" && n[4] == "Product Key" && n[5] == "Last Update" && n[6] == "Installation Date";
  }

  /** The seven names are pairwise different. */
  lemma WindowsNamesDistinct()
    ensures forall i, j :: 0 <= i < j < |WindowsFieldNames| ==> WindowsFieldNames[i] != WindowsFieldNames[j]
  {
    var n := WindowsFieldNames;
    assert n[0][8] == 'E' && n[1][8] == 'V' && n[2][8] == 'B';
    assert n[3][0] == 'P' && n[3][8] == 'I' && n[4][8] == 'K';
    assert n[5][0] == 'L' && n[6][0] == 'I';
  }

  /**
   The shown product key never carries more than the key's final group: it is "Not available"
   exactly when no key could be decoded, and otherwise the masked prefix and the last five
   symbols of the decoded key, 29 characters in all.
   */
  lemma {:induction false} ShownProductKey(
    winVer: (string, string, string),
    productId: Option<string>,
    digitalProductId: Option<seq<byte>>,
    updateRun: CommandResult,
    installRun: CommandResult)
    ensures var shown := Get(WindowsInfo(winVer, productId, digitalProductId, updateRun, installRun), "Product Key");
            && shown.Some?
            && (shown.value == "Not available" <==> ProductKeyOf(digitalProductId).None?)
            && (ProductKeyOf(digitalProductId).Some? ==>
                  && |shown.value| == 29 && |ProductKeyOf(digitalProductId).value| == 29
                  && shown.value == MaskPrefix + ProductKeyOf(digitalProductId).value[24..])
  {
    var info := WindowsInfo(winVer, productId, digitalProductId, updateRun, installRun);
    var key := ProductKeyOf(digitalProductId);
    if key.Some? {
      var window := digitalProductId.value[WindowStart..WindowStart + WindowLength];
      assert key.value == ReferenceKey(window);
      MaskedDecodedKey(window);
      assert MaskKey(key)[0] == MaskPrefix[0] != "Not available"[0];
    }
  }
}
