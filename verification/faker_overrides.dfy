/**
 * `argumentMapOverrides`, the table of per-key adjustments applied while the
 * catalog is built (`src/lib/faker-factory.js`, lines 165-1131): 236 keys map
 * to the empty override `{}`, five carry a display name (one also a
 * `Format` argument), two are excluded, and `mersenne.seed` gains a numeric
 * seed argument.
 */
module FakerOverrides {
  import opened Wrappers
  import opened Text
  import opened FakerSchema

  /** The keys whose override is `{}`, in table order. */
  const NoChangeKeys: seq<string> := [
    "address.cardinalDirection", "address.county", "address.latitude", "address.longitude",
    "address.nearbyGPSCoordinate", "address.ordinalDirection", "address.secondaryAddress", "address.state",
    "address.stateAbbr", "address.streetAddress", "address.streetName", "address.streetPrefix",
    "address.streetSuffix", "address.timeZone", "address.zipCode", "address.zipCodeByState",
    "animal.bear", "animal.bird", "animal.cat", "animal.cetacean",
    "animal.cow", "animal.crocodilia", "animal.dog", "animal.fish",
    "animal.horse", "animal.insect", "animal.lion", "animal.rabbit",
    "animal.snake", "animal.type", "commerce.color", "commerce.department",
    "commerce.price", "commerce.product", "commerce.productAdjective", "commerce.productDescription",
    "commerce.productMaterial", "commerce.productName", "company.bs", "company.bsAdjective",
    "company.bsBuzz", "company.bsNoun", "company.catchPhrase", "company.catchPhraseAdjective",
    "company.catchPhraseDescriptor", "company.catchPhraseNoun", "company.companyName", "company.companySuffix",
    "company.suffixes", "database.collation", "database.column", "database.engine",
    "database.type", "datatype.array", "datatype.boolean", "datatype.datetime",
    "datatype.float", "datatype.hexaDecimal", "datatype.json", "datatype.number",
    "datatype.string", "datatype.uuid", "date.between", "date.betweens",
    "date.future", "date.month", "date.past", "date.recent",
    "date.soon", "date.weekday", "finance.account", "finance.accountName",
    "finance.amount", "finance.bic", "finance.bitcoinAddress", "finance.creditCardCVV",
    "finance.creditCardNumber", "finance.currencyCode", "finance.currencyName", "finance.currencySymbol",
    "finance.ethereumAddress", "finance.iban", "finance.litecoinAddress", "finance.mask",
    "finance.routingNumber", "finance.transactionDescription", "finance.transactionType", "git.branch",
    "git.commitEntry", "git.commitMessage", "git.commitSha", "git.shortSha",
    "hacker.abbreviation", "hacker.adjective", "hacker.ingverb", "hacker.noun",
    "hacker.phrase", "hacker.verb", "helpers.contextualCard", "helpers.createCard",
    "helpers.createTransaction", "helpers.mustache", "helpers.randomize", "helpers.regexpStyleStringParse",
    "helpers.repeatString", "helpers.replaceCreditCardSymbols", "helpers.replaceSymbolWithNumber", "helpers.replaceSymbols",
    "helpers.shuffle", "helpers.slugify", "helpers.userCard", "image.abstract",
    "image.animals", "image.avatar", "image.business", "image.cats",
    "image.city", "image.dataUri", "image.fashion", "image.food",
    "image.image", "image.imageUrl", "image.lorempicsum.avatar", "image.lorempicsum.image",
    "image.lorempicsum.imageBlurred", "image.lorempicsum.imageGrayscale", "image.lorempicsum.imageRandomSeeded", "image.lorempicsum.imageUrl",
    "image.lorempixel.abstract", "image.lorempixel.animals", "image.lorempixel.avatar", "image.lorempixel.business",
    "image.lorempixel.cats", "image.lorempixel.city", "image.lorempixel.fashion", "image.lorempixel.food",
    "image.lorempixel.image", "image.lorempixel.imageUrl", "image.lorempixel.nature", "image.lorempixel.nightlife",
    "image.lorempixel.people", "image.lorempixel.sports", "image.lorempixel.technics", "image.lorempixel.transport",
    "image.nature", "image.nightlife", "image.people", "image.sports",
    "image.technics", "image.transport", "image.unsplash.avatar", "image.unsplash.buildings",
    "image.unsplash.food", "image.unsplash.image", "image.unsplash.imageUrl", "image.unsplash.nature",
    "image.unsplash.objects", "image.unsplash.people", "image.unsplash.technology", "internet.avatar",
    "internet.color", "internet.domainName", "internet.domainSuffix", "internet.domainWord",
    "internet.email", "internet.exampleEmail", "internet.httpMethod", "internet.ip",
    "internet.ipv6", "internet.mac", "internet.password", "internet.port",
    "internet.protocol", "internet.url", "internet.userAgent", "internet.userName",
    "lorem.lines", "lorem.paragraph", "lorem.paragraphs", "lorem.sentence",
    "lorem.sentences", "lorem.slug", "lorem.text", "lorem.word",
    "lorem.words", "mersenne.rand", "mersenne.seed_array", "music.genre",
    "name.firstName", "name.gender", "name.jobArea", "name.jobDescriptor",
    "name.jobTitle", "name.jobType", "name.lastName", "name.middleName",
    "name.prefix", "name.suffix", "name.title", "phone.phoneFormats",
    "phone.phoneNumber", "phone.phoneNumberFormat", "random.alpha", "random.alphaNumeric",
    "random.arrayElement", "random.arrayElements", "random.boolean", "random.float",
    "random.hexaDecimal", "random.image", "random.locale", "random.number",
    "random.objectElement", "random.uuid", "random.word", "random.words",
    "system.commonFileExt", "system.commonFileName", "system.commonFileType", "system.directoryPath",
    "system.fileExt", "system.fileName", "system.filePath", "system.fileType",
    "system.mimeType", "system.semver", "time.recent", "vehicle.bicycle",
    "vehicle.color", "vehicle.fuel", "vehicle.manufacturer", "vehicle.model",
    "vehicle.type", "vehicle.vehicle", "vehicle.vin", "vehicle.vrm"
  ]

  /** The entries that do something. */
  const ActiveOverrides: map<string, Override> := map[
    "address.city" := Assign(Patch(Some("City"), None, Some([Argument("Format", StringArg)]), None)),
    "address.cityName" := Assign(Patch(Some("City Name"), None, None, None)),
    "address.cityPrefix" := Transform(ExcludeFakerFn),
    "address.citySuffix" := Transform(ExcludeFakerFn),
    "address.country" := Assign(Patch(Some("Country"), None, None, None)),
    "address.countryCode" := Assign(Patch(Some("Country Code"), None, None, None)),
    "address.direction" := Assign(Patch(Some("Direction"), None, None, None)),
    "mersenne.seed" := Transform(SeedArgument)
  ]

  /** The whole table. */
  const ArgumentMapOverrides: map<string, Override> :=
    (map k | k in NoChangeKeys :: Assign(NoChange)) + ActiveOverrides

  /** The table's only exclusions are the city prefix and suffix. */
  lemma TableExclusions(k: string)
    ensures Excluded(ArgumentMapOverrides, k) <==> k == "address.cityPrefix" || k == "address.citySuffix"
  {
    if k in ActiveOverrides {
      ActiveWins(k);
      ActiveExclusions(k);
    } else {
      PassiveEntry(k);
    }
  }

  /** Among the active entries, exactly the city prefix and suffix exclude their key. */
  lemma ActiveExclusions(k: string)
    requires k in ActiveOverrides
    ensures ActiveOverrides[k] == Transform(ExcludeFakerFn) <==> k == "address.cityPrefix" || k == "address.citySuffix"
  {
  }

  /** A key without an active entry is either absent from the table or maps to `{}`. */
  lemma PassiveEntry(k: string)
    requires k !in ActiveOverrides
    ensures k in ArgumentMapOverrides ==> ArgumentMapOverrides[k] == Assign(NoChange)
  {
  }

  /** `address.city` is renamed `City` and given one string argument, `Format`. */
  lemma CityEntry()
    ensures "address.city" in ArgumentMapOverrides
    ensures ArgumentMapOverrides["address.city"] == Assign(Patch(Some("City"), None, Some([Argument("Format", StringArg)]), None))
  {
    ActiveWins("address.city");
  }

  /** `mersenne.seed` is the one key with the seed transform. */
  lemma SeedEntry()
    ensures "mersenne.seed" in ArgumentMapOverrides
    ensures ArgumentMapOverrides["mersenne.seed"] == Transform(SeedArgument)
  {
    ActiveWins("mersenne.seed");
  }

  /** The seed method's default name is the key's last segment, `seed`. */
  lemma SeedLastSegment()
    ensures LastSegment("mersenne.seed", '.') == "seed"
  {
    assert "mersenne.seed" == "mersenne" + ['.'] + "seed";
    LastSegmentAfterSeparator("mersenne", '.', "seed");
  }

  /** An entry that does something is the table's entry for its key. */
  lemma ActiveWins(k: string)
    requires k in ActiveOverrides
    ensures k in ArgumentMapOverrides && ArgumentMapOverrides[k] == ActiveOverrides[k]
  {
  }
}
