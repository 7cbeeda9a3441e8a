/** The payment gateway (Stripe) seen from this backend: the payloads it is
    sent, and a recorder that logs every call with its outcome. Which calls
    fail is an input of the model (`outcomes`). */
module StripeGateway {
  import opened Common

  /** `metadata` of a created gateway product (the ids are rendered with `toString()` in the source). */
  datatype ProductMetadata = ProductMetadata(dbProductId: int, categoryId: Option<int>, sellerId: Option<int>)

  /** Body of `stripe.products.create`; `None` is a field left undefined. */
  datatype ProductCreate = ProductCreate(
    name: Option<string>, description: Option<string>, images: Option<seq<string>>,
    metadata: ProductMetadata)

  /** What a field of `stripe.products.update` is set to. */
  datatype Text = Null | Text(s: string)

  /** Body of `stripe.products.update`; `None` is a field not sent. */
  datatype ProductUpdate = ProductUpdate(
    name: Option<string>, description: Option<Text>, images: Option<seq<string>>, active: Option<bool>)

  /** Body of `stripe.prices.create`; `unitAmount` is in cents. */
  datatype PriceCreate = PriceCreate(product: int, unitAmount: int, currency: string)

  /** One `line_items` entry of a checkout session; `unitAmount` is in cents. */
  datatype LineItem = LineItem(currency: string, name: string, unitAmount: int, quantity: int)

  /** One entry of the checkout manifest sent as session metadata. */
  datatype ManifestEntry = ManifestEntry(productId: int, quantity: int, unitPrice: int)

  /** Body of `stripe.checkout.sessions.create`; the manifest is sent JSON-encoded in the source. */
  datatype SessionCreate = SessionCreate(
    paymentMethodTypes: seq<string>, mode: string, lineItems: seq<LineItem>, manifest: seq<ManifestEntry>)

  datatype Request =
    | CreateProduct(product: ProductCreate)
    | CreatePrice(price: PriceCreate)
    | UpdateProduct(productRef: int, update: ProductUpdate)
    | CreateSession(session: SessionCreate)

  /** A call made to the gateway and, when it failed, the gateway's error message. */
  datatype Call = Call(request: Request, failure: Option<string>)

  /** The id of the object a request answers with: a new object for a creation, the target for an update. */
  function AnsweredId(request: Request, created: int): int {
    if request.UpdateProduct? then request.productRef else created
  }

  class Gateway {
    /** Every call made so far, oldest first. */
    var calls: seq<Call>
    /** Outcomes of the next calls, in order: `Some(message)` is a failure; once empty, calls succeed. */
    var outcomes: seq<Option<string>>

    constructor (outcomes: seq<Option<string>>)
      ensures this.calls == [] && this.outcomes == outcomes
    {
      this.calls := [];
      this.outcomes := outcomes;
    }

    /** The outcome the next call will have. */
    function NextOutcome(): Option<string>
      reads this
    {
      if |outcomes| > 0 then outcomes[0] else None
    }

    /** Sends one request. On success the answer is the id of the object
        created (its position in the call log) or updated. */
    method Send(request: Request) returns (r: Result<int>)
      modifies this
      ensures calls == old(calls) + [Call(request, old(NextOutcome()))]
      ensures outcomes == if |old(outcomes)| > 0 then old(outcomes)[1..] else []
      ensures old(NextOutcome()).Some? ==> r == Err(old(NextOutcome()).value)
      ensures old(NextOutcome()).None? ==> r == Ok(AnsweredId(request, |old(calls)|))
    {
      var outcome := NextOutcome();
      calls := calls + [Call(request, outcome)];
      if |outcomes| > 0 {
        outcomes := outcomes[1..];
      }
      if outcome.Some? {
        r := Err(outcome.value);
      } else {
        r := Ok(AnsweredId(request, |calls| - 1));
      }
    }
  }
}
