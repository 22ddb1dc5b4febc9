/** The market's own vocabulary: orders, auctions, items, recipes and the filters over them. */
module Market {
  import opened Common

  type UserStatus = string
  const USER_STATUS_INGAME: UserStatus := "ingame"
  const USER_STATUS_ONLINE: UserStatus := "online"

  type OrderType = string
  const ORDER_TYPE_SELL: OrderType := "sell"

  datatype SortField = Unsorted | ByPlatinum | ByQuantity | ByReputation
  datatype SortDirection = Asc | Desc

  datatype OrderUser = OrderUser(slug: string, ingameName: string, status: UserStatus, reputation: int)

  datatype Order = Order(id: string, orderType: OrderType, platinum: int, quantity: nat, user: OrderUser)

  datatype OrdersFilter = OrdersFilter(
    orderType: Option<OrderType>,
    status: seq<UserStatus>,
    sortBy: SortField,
    direction: SortDirection)

  datatype Attribute = Attribute(urlName: string, value: real, positive: bool)

  datatype AuctionOwner = AuctionOwner(ingameName: string, status: UserStatus)

  datatype Auction = Auction(
    id: string,
    buyoutPrice: int,
    isDirectSell: bool,
    owner: AuctionOwner,
    modRank: int,
    attributes: seq<Attribute>)

  datatype AuctionFilter = AuctionFilter(status: seq<UserStatus>, buyoutOnly: bool, buyoutPriceMax: int)

  datatype WeaponInfo = WeaponInfo(name: string, disposition: real, category: string)

  datatype Item = Item(id: string, slug: string, name: string)

  datatype ItemDetail = ItemDetail(
    id: string,
    slug: string,
    gameRef: string,
    name: string,
    setRoot: bool,
    setParts: seq<string>)

  datatype RecipeIngredient = RecipeIngredient(itemType: string, itemCount: int)

  datatype Recipe = Recipe(ingredients: seq<RecipeIngredient>)
}
