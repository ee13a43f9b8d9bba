/** The row shapes the client reads from the hosted store
    (project/src/lib/supabase.ts). Prices are integer cents and cart item
    identifiers are natural numbers handed out by the store. */
module Supabase {

  type ProductId = string
  type UserId = string

  /** A row of the `products` table. */
  datatype Product = Product(
    id: ProductId,
    name: string,
    description: string,
    price: nat,
    category: string,
    brand: string,
    imageUrl: string,
    stock: nat,
    specs: map<string, string>,
    rating: real,
    createdAt: string)

  /** A row of the `cart_items` table; the store stamps its creation time,
      which nothing here reads. */
  datatype CartItem = CartItem(
    id: nat,
    userId: UserId,
    productId: ProductId,
    quantity: int)
}
