// The invoice template: the status colour and the values it fills in, with their
// fall-backs. Layout, styling and number formatting are not modelled.

module Invoice {
  import opened Common
  import opened Store

  const Green: string := "#10b981"
  const Amber: string := "#f59e0b"
  const Red: string := "#ef4444"
  const Grey: string := "#6b7280"

  /** `getStatusColor`: the upper-cased status picks the colour; a missing status is grey. */
  function StatusColour(status: Option<string>): (c: string)
    ensures status.None? ==> c == Grey
    ensures status.Some? ==>
              && (c == Green <==> ToUpper(status.value) in {"COMPLETED", "SUCCESS", "PAID"})
              && (c == Amber <==> ToUpper(status.value) in {"PENDING", "PROCESSING"})
              && (c == Red <==> ToUpper(status.value) in {"FAILED", "CANCELLED", "REFUNDED"})
  {
    if status.None? then Grey
    else match ToUpper(status.value)
      case "COMPLETED" => Green
      case "SUCCESS" => Green
      case "PAID" => Green
      case "PENDING" => Amber
      case "PROCESSING" => Amber
      case "FAILED" => Red
      case "CANCELLED" => Red
      case "REFUNDED" => Red
      case _ => Grey
  }

  /** The colour does not depend on letter case. */
  lemma ColourIgnoresCase(a: string, b: string)
    requires ToUpper(a) == ToUpper(b)
    ensures StatusColour(Some(a)) == StatusColour(Some(b))
  {
  }

  lemma ToUpperOfUpper(s: string)
    requires forall i :: 0 <= i < |s| ==> !IsLower(s[i])
    ensures ToUpper(s) == s
  {
  }

  /** Every stored payment status has its own colour band, none of them grey. */
  lemma PaymentStatusColours(p: PaymentStatus)
    ensures p == Completed ==> StatusColour(Some(PaymentStatusName(p))) == Green
    ensures p == Pending ==> StatusColour(Some(PaymentStatusName(p))) == Amber
    ensures p == Failed || p == PaymentStatus.Cancelled ==> StatusColour(Some(PaymentStatusName(p))) == Red
  {
    ToUpperOfUpper(PaymentStatusName(p));
  }

  datatype PlanInfo = PlanInfo(name: Option<string>, deviceLimit: Option<int>, durationDays: Option<int>)

  datatype Customer = Customer(name: Option<string>, email: Option<string>)

  datatype InvoiceData = InvoiceData(status: Option<string>, currency: Option<string>, plan: Option<PlanInfo>,
                                     customer: Option<Customer>, description: Option<string>)

  /** The deployment's settings the template reads. */
  datatype Env = Env(logoUrl: Option<string>, appName: Option<string>, currency: Option<string>,
                     companyEmail: Option<string>, companyPhone: Option<string>)

  /** `value || fallback` for a number: 0 and a missing value print the fallback. */
  function NumberOr(n: Option<int>, fallback: string): string {
    if n.Some? && n.value != 0 then IntToString(n.value) else fallback
  }

  /** The values the template fills in. */
  datatype Fields = Fields(logo: Option<string>, companyName: string, companyEmail: string, companyPhone: string,
                           currency: string, customerName: string, customerEmail: string,
                           detailDescription: string, rowDescription: string, planName: string,
                           deviceLimit: string, duration: string, statusLabel: string, statusColour: string)

  /** The currency, shared by the e-mail and the PDF: the deployment's, the invoice's, or USD. */
  function Currency(env: Env, inv: InvoiceData): string {
    OrElse(env.currency, OrElse(inv.currency, "USD"))
  }

  function InvoiceFields(env: Env, inv: InvoiceData): Fields {
    var plan := Coalesce(inv.plan, PlanInfo(None, None, None));
    var customer := Coalesce(inv.customer, Customer(None, None));
    Fields(if Truthy(env.logoUrl) then env.logoUrl else None,
           OrElse(env.appName, "Your Company"), OrElse(env.companyEmail, "support@company.com"),
           OrElse(env.companyPhone, "+1 (555) 123-4567"),
           Currency(env, inv), OrElse(customer.name, "N/A"), OrElse(customer.email, "N/A"),
           OrElse(inv.description, "N/A"), OrElse(inv.description, "Service Subscription"),
           OrElse(plan.name, "Premium"), NumberOr(plan.deviceLimit, "20"), NumberOr(plan.durationDays, "30") + " days",
           if Truthy(inv.status) then ToUpper(inv.status.value) else "UNKNOWN",
           StatusColour(inv.status))
  }

  /** An invoice with nothing filled in shows every fall-back. */
  lemma InvoiceDefaults(env: Env)
    ensures var f := InvoiceFields(env, InvoiceData(None, None, None, None, None));
            && f.planName == "Premium" && f.deviceLimit == "20" && f.duration == "30 days"
            && f.customerName == "N/A" && f.customerEmail == "N/A" && f.detailDescription == "N/A"
            && f.rowDescription == "Service Subscription" && f.statusLabel == "UNKNOWN" && f.statusColour == Grey
            && (!Truthy(env.currency) ==> f.currency == "USD")
  {
  }

  /** The deployment's currency wins over the invoice's, which wins over USD; the logo
      appears exactly when a non-empty address is set; given values are shown as they are. */
  lemma InvoiceFieldsSpec(env: Env, inv: InvoiceData)
    ensures var f := InvoiceFields(env, inv);
            && (Truthy(env.currency) ==> f.currency == env.currency.value)
            && (!Truthy(env.currency) && Truthy(inv.currency) ==> f.currency == inv.currency.value)
            && (f.logo.Some? <==> Truthy(env.logoUrl))
            && (f.logo.Some? ==> f.logo == env.logoUrl)
            && (inv.plan.Some? && Truthy(inv.plan.value.name) ==> f.planName == inv.plan.value.name.value)
            && (inv.plan.Some? && inv.plan.value.deviceLimit.Some? && inv.plan.value.deviceLimit.value > 0 ==>
                  ParseInt(f.deviceLimit) == inv.plan.value.deviceLimit)
            && (Truthy(inv.status) ==> f.statusLabel == ToUpper(inv.status.value))
            && (!Truthy(inv.status) ==> f.statusLabel == "UNKNOWN")
  {
    if inv.plan.Some? && inv.plan.value.deviceLimit.Some? && inv.plan.value.deviceLimit.value > 0 {
      ParseIntOfNatToString(inv.plan.value.deviceLimit.value);
    }
  }

  /** The status label and colour agree: a label the template colours green, amber or red
      is the upper-cased status itself. */
  lemma LabelMatchesColour(inv: InvoiceData)
    requires InvoiceFields(Env(None, None, None, None, None), inv).statusColour != Grey
    ensures inv.status.Some? && ToUpper(inv.status.value) != ""
    ensures Truthy(inv.status) ==> StatusColour(Some(InvoiceFields(Env(None, None, None, None, None), inv).statusLabel))
                                    == InvoiceFields(Env(None, None, None, None, None), inv).statusColour
  {
    var s := inv.status.value;
    ToUpperOfUpper(ToUpper(s));
  }
}
