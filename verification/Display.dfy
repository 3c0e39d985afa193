/** Manager-facing numbers: app/decision_intelligence/display.py. */
module Display {
  import opened Text
  import opened Decimals

  /** vi_number */
  function ViNumber(v: real, decimals: nat): string {
    var printed := Fixed(v < 0.0, HalfUp(v, decimals), decimals);
    Localised(if decimals == 0 then printed else RStripChar(RStripChar(printed, '0'), '.'))
  }

  /** purchase_cost_display on a number */
  function PurchaseCostDisplay(amount: real): string {
    if amount >= 1000000.0 then ViNumber(amount / 1000000.0, 2) + " triệu đồng"
    else if amount >= 1000.0 then ViNumber(amount / 1000.0, 0) + " nghìn đồng"
    else ViNumber(amount, 0) + " đồng"
  }
}
