/** The site settings tree (`AppSettings` in src/components/ControlPanel.tsx):
    its fixed shape, the built-in defaults, and access to its scalar leaves
    outside `packages` and `salesPoints` through a closed set of field
    locators. Every dotted path the settings
    form hands to `updateSetting` names one locator, and `ParsePath` /
    `Path` translate between the two. */
module Settings {
  import opened Wrappers
  import Strings

  // ---------------------------------------------------------------------
  // Shape
  // ---------------------------------------------------------------------

  /** The editable fields of a package; `id` is not among them. */
  datatype PackageKey = Name | Speed | Price

  datatype Package = Package(id: string, name: string, speed: string, price: string) {
    function Get(k: PackageKey): string {
      match k
      case Name => name
      case Speed => speed
      case Price => price
    }

    /** `{ ...pkg, [k]: v }` */
    function With(k: PackageKey, v: string): (p: Package)
      ensures p.id == id && p.Get(k) == v
      ensures forall k' :: k' != k ==> p.Get(k') == Get(k')
    {
      match k
      case Name => this.(name := v)
      case Speed => this.(speed := v)
      case Price => this.(price := v)
    }
  }

  /** Two packages with the same id and the same editable fields are equal. */
  lemma PackageExtensional(p: Package, q: Package)
    requires p.id == q.id
    requires forall k :: p.Get(k) == q.Get(k)
    ensures p == q
  {
    assert p.Get(Name) == q.Get(Name);
    assert p.Get(Speed) == q.Get(Speed);
    assert p.Get(Price) == q.Get(Price);
  }

  datatype CardInfoKey = DownloadSpeed | UploadSpeed | PackagePrice

  datatype CardInfo = CardInfo(downloadSpeed: string, uploadSpeed: string, packagePrice: string) {
    function Get(k: CardInfoKey): string {
      match k
      case DownloadSpeed => downloadSpeed
      case UploadSpeed => uploadSpeed
      case PackagePrice => packagePrice
    }

    function With(k: CardInfoKey, v: string): CardInfo {
      match k
      case DownloadSpeed => this.(downloadSpeed := v)
      case UploadSpeed => this.(uploadSpeed := v)
      case PackagePrice => this.(packagePrice := v)
    }
  }

  datatype WelcomeKey = Text1 | Text2 | Text3

  datatype WelcomeTexts = WelcomeTexts(text1: string, text2: string, text3: string) {
    function Get(k: WelcomeKey): string {
      match k
      case Text1 => text1
      case Text2 => text2
      case Text3 => text3
    }

    function With(k: WelcomeKey, v: string): WelcomeTexts {
      match k
      case Text1 => this.(text1 := v)
      case Text2 => this.(text2 := v)
      case Text3 => this.(text3 := v)
    }
  }

  datatype FeatureKey = Icon | Text

  datatype Feature = Feature(icon: string, text: string) {
    function Get(k: FeatureKey): string {
      match k
      case Icon => icon
      case Text => text
    }

    function With(k: FeatureKey, v: string): Feature {
      match k
      case Icon => this.(icon := v)
      case Text => this.(text := v)
    }
  }

  /** The three fixed feature slots. */
  datatype Slot = Feature1 | Feature2 | Feature3

  datatype Features = Features(feature1: Feature, feature2: Feature, feature3: Feature) {
    function At(slot: Slot): Feature {
      match slot
      case Feature1 => feature1
      case Feature2 => feature2
      case Feature3 => feature3
    }

    function WithAt(slot: Slot, f: Feature): Features {
      match slot
      case Feature1 => this.(feature1 := f)
      case Feature2 => this.(feature2 := f)
      case Feature3 => this.(feature3 := f)
    }
  }

  datatype CopyrightKey = IdeaCreator | Designer | Year

  datatype Copyright = Copyright(ideaCreator: string, designer: string, year: string) {
    function Get(k: CopyrightKey): string {
      match k
      case IdeaCreator => ideaCreator
      case Designer => designer
      case Year => year
    }

    function With(k: CopyrightKey, v: string): Copyright {
      match k
      case IdeaCreator => this.(ideaCreator := v)
      case Designer => this.(designer := v)
      case Year => this.(year := v)
    }
  }

  datatype CardDataKey = CardNumber | Balance | ExpiryDate

  datatype CardData = CardData(cardNumber: string, balance: string, expiryDate: string) {
    function Get(k: CardDataKey): string {
      match k
      case CardNumber => cardNumber
      case Balance => balance
      case ExpiryDate => expiryDate
    }

    function With(k: CardDataKey, v: string): CardData {
      match k
      case CardNumber => this.(cardNumber := v)
      case Balance => this.(balance := v)
      case ExpiryDate => this.(expiryDate := v)
    }
  }

  datatype DashboardKey = MainText | SubText

  datatype DashboardWelcome = DashboardWelcome(mainText: string, subText: string) {
    function Get(k: DashboardKey): string {
      match k
      case MainText => mainText
      case SubText => subText
    }

    function With(k: DashboardKey, v: string): DashboardWelcome {
      match k
      case MainText => this.(mainText := v)
      case SubText => this.(subText := v)
    }
  }

  /** A scalar leaf of the tree outside `packages` and `salesPoints`: the
      places `UpdateSetting` accepts a dotted path for. The nesting of the
      constructors follows the nesting of the tree. */
  datatype Field =
    | SiteName
    | SupportPhone
    | SupportPhone2
    | CardInfoField(cardKey: CardInfoKey)
    | WelcomeField(welcomeKey: WelcomeKey)
    | FeatureField(slot: Slot, featureKey: FeatureKey)
    | CopyrightField(copyrightKey: CopyrightKey)
    | CardDataField(cardDataKey: CardDataKey)
    | DashboardField(dashboardKey: DashboardKey)

  datatype AppSettings = AppSettings(
    siteName: string,
    supportPhone: string,
    supportPhone2: string,
    packages: seq<Package>,
    salesPoints: seq<string>,
    cardInfo: CardInfo,
    welcomeTexts: WelcomeTexts,
    features: Features,
    copyright: Copyright,
    defaultCardData: CardData,
    dashboardWelcome: DashboardWelcome)
  {
    /** The value of one scalar leaf. */
    function Get(f: Field): string {
      match f
      case SiteName => siteName
      case SupportPhone => supportPhone
      case SupportPhone2 => supportPhone2
      case CardInfoField(k) => cardInfo.Get(k)
      case WelcomeField(k) => welcomeTexts.Get(k)
      case FeatureField(slot, k) => features.At(slot).Get(k)
      case CopyrightField(k) => copyright.Get(k)
      case CardDataField(k) => defaultCardData.Get(k)
      case DashboardField(k) => dashboardWelcome.Get(k)
    }

    /** `updateSetting(path, v)` for the leaf `f`: exactly that leaf becomes
        `v`; every other leaf and both collections keep their values. */
    function Set(f: Field, v: string): (r: AppSettings)
      ensures r.Get(f) == v
      ensures forall g :: g != f ==> r.Get(g) == Get(g)
      ensures r.packages == packages && r.salesPoints == salesPoints
    {
      match f
      case SiteName => this.(siteName := v)
      case SupportPhone => this.(supportPhone := v)
      case SupportPhone2 => this.(supportPhone2 := v)
      case CardInfoField(k) => this.(cardInfo := cardInfo.With(k, v))
      case WelcomeField(k) => this.(welcomeTexts := welcomeTexts.With(k, v))
      case FeatureField(slot, k) => this.(features := features.WithAt(slot, features.At(slot).With(k, v)))
      case CopyrightField(k) => this.(copyright := copyright.With(k, v))
      case CardDataField(k) => this.(defaultCardData := defaultCardData.With(k, v))
      case DashboardField(k) => this.(dashboardWelcome := dashboardWelcome.With(k, v))
    }
  }

  /** The leaves and the two collections make up the whole tree: two trees
      that agree on all of them are equal. This is what makes the frame
      clauses of `Set` and of the collection editors complete. */
  lemma Extensional(s: AppSettings, t: AppSettings)
    requires forall f :: s.Get(f) == t.Get(f)
    requires s.packages == t.packages && s.salesPoints == t.salesPoints
    ensures s == t
  {
    assert s.Get(SiteName) == t.Get(SiteName);
    assert s.Get(SupportPhone) == t.Get(SupportPhone);
    assert s.Get(SupportPhone2) == t.Get(SupportPhone2);
    assert s.cardInfo == t.cardInfo by {
      assert s.Get(CardInfoField(DownloadSpeed)) == t.Get(CardInfoField(DownloadSpeed));
      assert s.Get(CardInfoField(UploadSpeed)) == t.Get(CardInfoField(UploadSpeed));
      assert s.Get(CardInfoField(PackagePrice)) == t.Get(CardInfoField(PackagePrice));
    }
    assert s.welcomeTexts == t.welcomeTexts by {
      assert s.Get(WelcomeField(Text1)) == t.Get(WelcomeField(Text1));
      assert s.Get(WelcomeField(Text2)) == t.Get(WelcomeField(Text2));
      assert s.Get(WelcomeField(Text3)) == t.Get(WelcomeField(Text3));
    }
    assert s.features.feature1 == t.features.feature1 by {
      assert s.Get(FeatureField(Feature1, Icon)) == t.Get(FeatureField(Feature1, Icon));
      assert s.Get(FeatureField(Feature1, Text)) == t.Get(FeatureField(Feature1, Text));
    }
    assert s.features.feature2 == t.features.feature2 by {
      assert s.Get(FeatureField(Feature2, Icon)) == t.Get(FeatureField(Feature2, Icon));
      assert s.Get(FeatureField(Feature2, Text)) == t.Get(FeatureField(Feature2, Text));
    }
    assert s.features.feature3 == t.features.feature3 by {
      assert s.Get(FeatureField(Feature3, Icon)) == t.Get(FeatureField(Feature3, Icon));
      assert s.Get(FeatureField(Feature3, Text)) == t.Get(FeatureField(Feature3, Text));
    }
    assert s.copyright == t.copyright by {
      assert s.Get(CopyrightField(IdeaCreator)) == t.Get(CopyrightField(IdeaCreator));
      assert s.Get(CopyrightField(Designer)) == t.Get(CopyrightField(Designer));
      assert s.Get(CopyrightField(Year)) == t.Get(CopyrightField(Year));
    }
    assert s.defaultCardData == t.defaultCardData by {
      assert s.Get(CardDataField(CardNumber)) == t.Get(CardDataField(CardNumber));
      assert s.Get(CardDataField(Balance)) == t.Get(CardDataField(Balance));
      assert s.Get(CardDataField(ExpiryDate)) == t.Get(CardDataField(ExpiryDate));
    }
    assert s.dashboardWelcome == t.dashboardWelcome by {
      assert s.Get(DashboardField(MainText)) == t.Get(DashboardField(MainText));
      assert s.Get(DashboardField(SubText)) == t.Get(DashboardField(SubText));
    }
  }

  /** Writing a leaf's current value back changes nothing. */
  lemma SetCurrentValue(s: AppSettings, f: Field)
    ensures s.Set(f, s.Get(f)) == s
  {
    Extensional(s.Set(f, s.Get(f)), s);
  }

  /** The second of two writes to the same leaf wins. */
  lemma SetTwice(s: AppSettings, f: Field, v: string, w: string)
    ensures s.Set(f, v).Set(f, w) == s.Set(f, w)
  {
    Extensional(s.Set(f, v).Set(f, w), s.Set(f, w));
  }

  /** Writes to different leaves commute. */
  lemma SetCommutes(s: AppSettings, f: Field, v: string, g: Field, w: string)
    requires f != g
    ensures s.Set(f, v).Set(g, w) == s.Set(g, w).Set(f, v)
  {
    Extensional(s.Set(f, v).Set(g, w), s.Set(g, w).Set(f, v));
  }

  // ---------------------------------------------------------------------
  // Defaults
  // ---------------------------------------------------------------------

  /** `defaultSettings`. */
  const Default: AppSettings := AppSettings(
    "خنفر نت",
    "778881677",
    "739149005",
    [ Package("1", "أساسي", "1 Mbps", "50 ريال"),
      Package("2", "متوسط", "5 Mbps", "100 ريال"),
      Package("3", "سريع", "10 Mbps", "150 ريال"),
      Package("4", "فائق السرعة", "25 Mbps", "200 ريال") ],
    [ "نقطة بيع 1", "نقطة بيع 2", "نقطة بيع 3" ],
    CardInfo("25 Mbps", "12 Mbps", "200 ريال"),
    WelcomeTexts(
      "سجل دخولك واستمتع بخدمات خنفر نت للاسلكية",
      "توصيل إنترنت للمنازل مجاناً للتواصل معنا 778881677ـ739149005",
      "الشكاوي و المقترحات تواصل معنا عبر المساعدة ودعم"),
    Features(Feature("Shield", "آمن"), Feature("Globe", "سريع"), Feature("Wifi", "موثوق")),
    Copyright("محمد الحوشبي", "محمد الحوشبي", "2024"),
    CardData("123456789", "5000 MB", "2024/12/31"),
    DashboardWelcome("مرحباً", "يرجى الاحتفاظ بالكارت حتى انتهاء الرصيد"))

  // ---------------------------------------------------------------------
  // Dotted paths
  // ---------------------------------------------------------------------

  function CardInfoKeyName(k: CardInfoKey): string {
    match k
    case DownloadSpeed => "downloadSpeed"
    case UploadSpeed => "uploadSpeed"
    case PackagePrice => "packagePrice"
  }

  function WelcomeKeyName(k: WelcomeKey): string {
    match k
    case Text1 => "text1"
    case Text2 => "text2"
    case Text3 => "text3"
  }

  function SlotName(slot: Slot): string {
    match slot
    case Feature1 => "feature1"
    case Feature2 => "feature2"
    case Feature3 => "feature3"
  }

  function FeatureKeyName(k: FeatureKey): string {
    match k
    case Icon => "icon"
    case Text => "text"
  }

  function CopyrightKeyName(k: CopyrightKey): string {
    match k
    case IdeaCreator => "ideaCreator"
    case Designer => "designer"
    case Year => "year"
  }

  function CardDataKeyName(k: CardDataKey): string {
    match k
    case CardNumber => "cardNumber"
    case Balance => "balance"
    case ExpiryDate => "expiryDate"
  }

  function DashboardKeyName(k: DashboardKey): string {
    match k
    case MainText => "mainText"
    case SubText => "subText"
  }

  /** The property names leading from the root of the tree to the leaf. */
  function Keys(f: Field): (keys: seq<string>)
    ensures 1 <= |keys| <= 3
    ensures forall i :: 0 <= i < |keys| ==> '.' !in keys[i]
  {
    match f
    case SiteName => ["siteName"]
    case SupportPhone => ["supportPhone"]
    case SupportPhone2 => ["supportPhone2"]
    case CardInfoField(k) => ["cardInfo", CardInfoKeyName(k)]
    case WelcomeField(k) => ["welcomeTexts", WelcomeKeyName(k)]
    case FeatureField(slot, k) => ["features", SlotName(slot), FeatureKeyName(k)]
    case CopyrightField(k) => ["copyright", CopyrightKeyName(k)]
    case CardDataField(k) => ["defaultCardData", CardDataKeyName(k)]
    case DashboardField(k) => ["dashboardWelcome", DashboardKeyName(k)]
  }

  /** The dotted path the settings form passes to `updateSetting` for `f`. */
  function Path(f: Field): string {
    Strings.Join(Keys(f), '.')
  }

  function CardInfoKeyNamed(n: string): Option<CardInfoKey> {
    if n == "downloadSpeed" then Some(DownloadSpeed)
    else if n == "uploadSpeed" then Some(UploadSpeed)
    else if n == "packagePrice" then Some(PackagePrice)
    else None
  }

  function WelcomeKeyNamed(n: string): Option<WelcomeKey> {
    if n == "text1" then Some(Text1)
    else if n == "text2" then Some(Text2)
    else if n == "text3" then Some(Text3)
    else None
  }

  function SlotNamed(n: string): Option<Slot> {
    if n == "feature1" then Some(Feature1)
    else if n == "feature2" then Some(Feature2)
    else if n == "feature3" then Some(Feature3)
    else None
  }

  function FeatureKeyNamed(n: string): Option<FeatureKey> {
    if n == "icon" then Some(Icon)
    else if n == "text" then Some(Text)
    else None
  }

  function CopyrightKeyNamed(n: string): Option<CopyrightKey> {
    if n == "ideaCreator" then Some(IdeaCreator)
    else if n == "designer" then Some(Designer)
    else if n == "year" then Some(Year)
    else None
  }

  function CardDataKeyNamed(n: string): Option<CardDataKey> {
    if n == "cardNumber" then Some(CardNumber)
    else if n == "balance" then Some(Balance)
    else if n == "expiryDate" then Some(ExpiryDate)
    else None
  }

  function DashboardKeyNamed(n: string): Option<DashboardKey> {
    if n == "mainText" then Some(MainText)
    else if n == "subText" then Some(SubText)
    else None
  }

  /** The leaf a key sequence leads to, if it leads to one. */
  function Locate(keys: seq<string>): (r: Option<Field>)
    ensures r.Some? ==> Keys(r.value) == keys
  {
    if |keys| == 1 then
      if keys[0] == "siteName" then Some(SiteName)
      else if keys[0] == "supportPhone" then Some(SupportPhone)
      else if keys[0] == "supportPhone2" then Some(SupportPhone2)
      else None
    else if |keys| == 2 then
      var (group, leaf) := (keys[0], keys[1]);
      if group == "cardInfo" then
        match CardInfoKeyNamed(leaf) case Some(k) => Some(CardInfoField(k)) case None => None
      else if group == "welcomeTexts" then
        match WelcomeKeyNamed(leaf) case Some(k) => Some(WelcomeField(k)) case None => None
      else if group == "copyright" then
        match CopyrightKeyNamed(leaf) case Some(k) => Some(CopyrightField(k)) case None => None
      else if group == "defaultCardData" then
        match CardDataKeyNamed(leaf) case Some(k) => Some(CardDataField(k)) case None => None
      else if group == "dashboardWelcome" then
        match DashboardKeyNamed(leaf) case Some(k) => Some(DashboardField(k)) case None => None
      else None
    else if |keys| == 3 && keys[0] == "features" then
      match (SlotNamed(keys[1]), FeatureKeyNamed(keys[2]))
      case (Some(slot), Some(k)) => Some(FeatureField(slot, k))
      case _ => None
    else None
  }

  /** `path.split('.')` followed by the walk down the tree, for the paths that
      end at a leaf; `None` for every other string. */
  function ParsePath(path: string): Option<Field> {
    Locate(Strings.Split(path, '.'))
  }

  lemma LocateKeys(f: Field)
    ensures Locate(Keys(f)) == Some(f)
  {
  }

  /** `ParsePath` and `Path` are inverse: a string parses to a leaf exactly
      when it is that leaf's path. */
  lemma {:induction false} PathRoundTrip(path: string, f: Field)
    ensures ParsePath(path) == Some(f) <==> path == Path(f)
  {
    if path == Path(f) {
      Strings.SplitJoin(Keys(f), '.');
      LocateKeys(f);
    }
    if ParsePath(path) == Some(f) {
      Strings.JoinSplit(path, '.');
    }
  }

  /** The dotted paths the settings form passes to `updateSetting`, in the
      order they appear in the form. */
  const FormPaths: seq<string> := [
    "siteName", "supportPhone", "supportPhone2",
    "cardInfo.downloadSpeed", "cardInfo.uploadSpeed", "cardInfo.packagePrice",
    "defaultCardData.cardNumber", "defaultCardData.balance", "defaultCardData.expiryDate",
    "welcomeTexts.text1", "welcomeTexts.text2", "welcomeTexts.text3",
    "dashboardWelcome.mainText", "dashboardWelcome.subText",
    "features.feature1.icon", "features.feature1.text",
    "features.feature2.icon", "features.feature2.text",
    "features.feature3.icon", "features.feature3.text",
    "copyright.ideaCreator", "copyright.designer", "copyright.year"]

  /** Every leaf, in the order of `FormPaths`. */
  const AllFields: seq<Field> := [
    SiteName, SupportPhone, SupportPhone2,
    CardInfoField(DownloadSpeed), CardInfoField(UploadSpeed), CardInfoField(PackagePrice),
    CardDataField(CardNumber), CardDataField(Balance), CardDataField(ExpiryDate),
    WelcomeField(Text1), WelcomeField(Text2), WelcomeField(Text3),
    DashboardField(MainText), DashboardField(SubText),
    FeatureField(Feature1, Icon), FeatureField(Feature1, Text),
    FeatureField(Feature2, Icon), FeatureField(Feature2, Text),
    FeatureField(Feature3, Icon), FeatureField(Feature3, Text),
    CopyrightField(IdeaCreator), CopyrightField(Designer), CopyrightField(Year)]

  /** The form's paths are exactly the leaves: each path it uses parses to a
      leaf, and every leaf is reachable from the form. */
  lemma FormPathsAreLeaves()
    ensures |FormPaths| == |AllFields|
    ensures forall i :: 0 <= i < |FormPaths| ==> ParsePath(FormPaths[i]) == Some(AllFields[i])
    ensures forall f :: f in AllFields
  {
    forall i | 0 <= i < |FormPaths| ensures ParsePath(FormPaths[i]) == Some(AllFields[i]) {
      FormPathIsPath(i);
      PathRoundTrip(FormPaths[i], AllFields[i]);
    }
    AllFieldsComplete();
  }

  /** A path written out: the keys with dots between them. */
  lemma PathSpelled(f: Field)
    ensures |Keys(f)| == 1 ==> Path(f) == Keys(f)[0]
    ensures |Keys(f)| == 2 ==> Path(f) == Keys(f)[0] + "." + Keys(f)[1]
    ensures |Keys(f)| == 3 ==> Path(f) == Keys(f)[0] + "." + Keys(f)[1] + "." + Keys(f)[2]
  {
    var keys := Keys(f);
    if |keys| == 2 {
      assert keys[1..] == [keys[1]];
    } else if |keys| == 3 {
      assert keys[1..][1..] == [keys[2]];
    }
  }

  // For each settings record, `<Record>Spelled` states the dotted paths of its
  // fields, and `<Record>Paths` states that the form lists exactly those paths
  // at the positions of those fields.

  /** The paths of the top-level fields, spelled out. */
  lemma TopLevelSpelled()
    ensures Path(SiteName) == "siteName"
    ensures Path(SupportPhone) == "supportPhone"
    ensures Path(SupportPhone2) == "supportPhone2"
  {
    PathSpelled(SiteName);
    PathSpelled(SupportPhone);
    PathSpelled(SupportPhone2);
  }

  /** The form uses the paths of the top-level fields. */
  lemma TopLevelPaths()
    ensures forall i :: 0 <= i < 3 ==> Path(AllFields[i]) == FormPaths[i]
  {
    TopLevelSpelled();
  }

  /** The paths of the `cardInfo` fields, spelled out. */
  lemma CardInfoSpelled()
    ensures Path(CardInfoField(DownloadSpeed)) == "cardInfo.downloadSpeed"
    ensures Path(CardInfoField(UploadSpeed)) == "cardInfo.uploadSpeed"
    ensures Path(CardInfoField(PackagePrice)) == "cardInfo.packagePrice"
  {
    PathSpelled(CardInfoField(DownloadSpeed));
    PathSpelled(CardInfoField(UploadSpeed));
    PathSpelled(CardInfoField(PackagePrice));
  }

  /** The form uses the paths of the `cardInfo` fields. */
  lemma CardInfoPaths()
    ensures forall i :: 3 <= i < 6 ==> Path(AllFields[i]) == FormPaths[i]
  {
    CardInfoSpelled();
  }

  /** The paths of the `defaultCardData` fields, spelled out. */
  lemma CardDataSpelled()
    ensures Path(CardDataField(CardNumber)) == "defaultCardData.cardNumber"
    ensures Path(CardDataField(Balance)) == "defaultCardData.balance"
    ensures Path(CardDataField(ExpiryDate)) == "defaultCardData.expiryDate"
  {
    PathSpelled(CardDataField(CardNumber));
    PathSpelled(CardDataField(Balance));
    PathSpelled(CardDataField(ExpiryDate));
  }

  /** The form uses the paths of the `defaultCardData` fields. */
  lemma CardDataPaths()
    ensures forall i :: 6 <= i < 9 ==> Path(AllFields[i]) == FormPaths[i]
  {
    CardDataSpelled();
  }

  /** The paths of the `welcomeTexts` fields, spelled out. */
  lemma WelcomeSpelled()
    ensures Path(WelcomeField(Text1)) == "welcomeTexts.text1"
    ensures Path(WelcomeField(Text2)) == "welcomeTexts.text2"
    ensures Path(WelcomeField(Text3)) == "welcomeTexts.text3"
  {
    PathSpelled(WelcomeField(Text1));
    PathSpelled(WelcomeField(Text2));
    PathSpelled(WelcomeField(Text3));
  }

  /** The form uses the paths of the `welcomeTexts` fields. */
  lemma WelcomePaths()
    ensures forall i :: 9 <= i < 12 ==> Path(AllFields[i]) == FormPaths[i]
  {
    WelcomeSpelled();
  }

  /** The paths of the `dashboardWelcome` fields, spelled out. */
  lemma DashboardSpelled()
    ensures Path(DashboardField(MainText)) == "dashboardWelcome.mainText"
    ensures Path(DashboardField(SubText)) == "dashboardWelcome.subText"
  {
    PathSpelled(DashboardField(MainText));
    PathSpelled(DashboardField(SubText));
  }

  /** The form uses the paths of the `dashboardWelcome` fields. */
  lemma DashboardPaths()
    ensures forall i :: 12 <= i < 14 ==> Path(AllFields[i]) == FormPaths[i]
  {
    DashboardSpelled();
  }

  /** The paths of the fields of `features.feature1`, spelled out. */
  lemma Feature1Spelled()
    ensures Path(FeatureField(Feature1, Icon)) == "features.feature1.icon"
    ensures Path(FeatureField(Feature1, Text)) == "features.feature1.text"
  {
    PathSpelled(FeatureField(Feature1, Icon));
    PathSpelled(FeatureField(Feature1, Text));
  }

  /** The form uses the paths of the fields of `features.feature1`. */
  lemma Feature1Paths()
    ensures forall i :: 14 <= i < 16 ==> Path(AllFields[i]) == FormPaths[i]
  {
    Feature1Spelled();
  }

  /** The paths of the fields of `features.feature2`, spelled out. */
  lemma Feature2Spelled()
    ensures Path(FeatureField(Feature2, Icon)) == "features.feature2.icon"
    ensures Path(FeatureField(Feature2, Text)) == "features.feature2.text"
  {
    PathSpelled(FeatureField(Feature2, Icon));
    PathSpelled(FeatureField(Feature2, Text));
  }

  /** The form uses the paths of the fields of `features.feature2`. */
  lemma Feature2Paths()
    ensures forall i :: 16 <= i < 18 ==> Path(AllFields[i]) == FormPaths[i]
  {
    Feature2Spelled();
  }

  /** The paths of the fields of `features.feature3`, spelled out. */
  lemma Feature3Spelled()
    ensures Path(FeatureField(Feature3, Icon)) == "features.feature3.icon"
    ensures Path(FeatureField(Feature3, Text)) == "features.feature3.text"
  {
    PathSpelled(FeatureField(Feature3, Icon));
    PathSpelled(FeatureField(Feature3, Text));
  }

  /** The form uses the paths of the fields of `features.feature3`. */
  lemma Feature3Paths()
    ensures forall i :: 18 <= i < 20 ==> Path(AllFields[i]) == FormPaths[i]
  {
    Feature3Spelled();
  }

  /** The paths of the `copyright` fields, spelled out. */
  lemma CopyrightSpelled()
    ensures Path(CopyrightField(IdeaCreator)) == "copyright.ideaCreator"
    ensures Path(CopyrightField(Designer)) == "copyright.designer"
    ensures Path(CopyrightField(Year)) == "copyright.year"
  {
    PathSpelled(CopyrightField(IdeaCreator));
    PathSpelled(CopyrightField(Designer));
    PathSpelled(CopyrightField(Year));
  }

  /** The form uses the paths of the `copyright` fields. */
  lemma CopyrightPaths()
    ensures forall i :: 20 <= i < 23 ==> Path(AllFields[i]) == FormPaths[i]
  {
    CopyrightSpelled();
  }

  lemma FormPathIsPath(i: nat)
    requires i < |FormPaths|
    ensures Path(AllFields[i]) == FormPaths[i]
  {
    TopLevelPaths();
    CardInfoPaths();
    CardDataPaths();
    WelcomePaths();
    DashboardPaths();
    Feature1Paths();
    Feature2Paths();
    Feature3Paths();
    CopyrightPaths();
  }

  lemma AllFieldsComplete()
    ensures forall f :: f in AllFields
  {
    forall f ensures f in AllFields {
      match f {
        case CardInfoField(k) =>
          match k { case DownloadSpeed => case UploadSpeed => case PackagePrice => }
        case WelcomeField(k) =>
          match k { case Text1 => case Text2 => case Text3 => }
        case FeatureField(slot, k) =>
          match slot {
            case Feature1 => match k { case Icon => case Text => }
            case Feature2 => match k { case Icon => case Text => }
            case Feature3 => match k { case Icon => case Text => }
          }
        case CopyrightField(k) =>
          match k { case IdeaCreator => case Designer => case Year => }
        case CardDataField(k) =>
          match k { case CardNumber => case Balance => case ExpiryDate => }
        case DashboardField(k) =>
          match k { case MainText => case SubText => }
        case _ =>
      }
    }
  }

  /** The leaf a string parses to, stated for every leaf at once. */
  lemma ParsePathExact(path: string)
    ensures forall f :: ParsePath(path) == Some(f) <==> path == Path(f)
  {
    forall f ensures ParsePath(path) == Some(f) <==> path == Path(f) {
      PathRoundTrip(path, f);
    }
  }

  /** `updateSetting(path, value)`: the leaf the path names is replaced; a path
      that names no leaf, including one through a collection index such as
      `salesPoints.0`, is refused with `None`. */
  function UpdateSetting(s: AppSettings, path: string, value: string): (r: Option<AppSettings>)
    ensures forall f :: path == Path(f) ==> r == Some(s.Set(f, value))
    ensures (forall f :: path != Path(f)) ==> r == None
  {
    ParsePathExact(path);
    match ParsePath(path)
    case Some(f) => Some(s.Set(f, value))
    case None => None
  }
}
