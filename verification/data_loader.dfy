/** The start-up seeding of the product catalogue. */
module DataLoader {
  import opened Decimals
  import opened ProductService

  const SeedName: string := "iPhone 13"
  const SeedDescription: string := "iPhone 13"
  const SeedPrice: Decimal := ValueOf(1000)

  /** `DataLoader.run`: when the repository counts fewer than one product,
      save the seed product (the database assigns `assignedId`); otherwise do
      nothing. */
  function Run(store: seq<Product>, assignedId: string): (after: seq<Product>)
    ensures |store| == 0 ==> after == [Product(assignedId, "iPhone 13", "iPhone 13", Decimal(1000, 0))]
    ensures |store| > 0 ==> after == store
  {
    if |store| < 1 then Save(store, SeedName, SeedDescription, SeedPrice, assignedId)
    else store
  }

  /** Seeding is idempotent: a second run, whatever identifier it would
      assign, leaves the repository as the first run left it. */
  lemma RunIdempotent(store: seq<Product>, firstId: string, secondId: string)
    ensures Run(Run(store, firstId), secondId) == Run(store, firstId)
    ensures |Run(store, firstId)| >= 1
  {
  }
}
