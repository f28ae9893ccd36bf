/** The demo records the pages fall back on: seed accounts, seed courses and seed posts. */
module Fixtures {
  import opened Entities

  const SeedUsers: seq<User> := [
    User(1, "student01", "student01@example.com", "123456", "student",
         "https://api.dicebear.com/7.x/avataaars/svg?seed=student01", "2024-01-15", 5, 850, "初级学员"),
    User(2, "teacher01", "teacher01@example.com", "123456", "teacher",
         "https://api.dicebear.com/7.x/avataaars/svg?seed=teacher01", "2024-01-10", 15, 1200, "高级讲师"),
    User(3, "admin", "admin@example.com", "123456", "admin",
         "https://api.dicebear.com/7.x/avataaars/svg?seed=admin", "2024-01-01", 20, 1500, "管理员")
  ]

  const SeedCourses: seq<Course> := [
    Course(1, "金融市场基础", "了解金融市场的基本运作机制，包括股票市场、债券市场、外汇市场等", "张教授", "8小时",
           "初级", "基础知识", 156, 4.8, "https://images.unsplash.com/photo-1611974789855-9c2a0a7236a3?w=400",
           [Lesson(1, "金融市场概述", "45分钟", false, "video1.mp4"),
            Lesson(2, "股票市场基础", "60分钟", false, "video2.mp4"),
            Lesson(3, "债券市场入门", "50分钟", false, "video3.mp4")]),
    Course(2, "投资组合管理", "学习如何构建和管理投资组合，理解风险与收益的平衡，掌握了解市场动态", "李博士", "12小时",
           "中级", "投资分析", 89, 4.6, "https://images.unsplash.com/photo-1460925895917-afdab827c52f?w=400",
           [Lesson(1, "投资组合理论", "90分钟", false, "video1.mp4"),
            Lesson(2, "资产配置策略", "75分钟", false, "video2.mp4")]),
    Course(3, "金融风险管理", "掌握金融风险的识别、评估和控制方法。把握金融风险投资情况", "王专家", "10小时",
           "高级", "风险管理", 67, 4.9, "https://images.unsplash.com/photo-1554224155-6726b3ff858f?w=400",
           [Lesson(1, "风险类型与识别", "60分钟", false, "video1.mp4"),
            Lesson(2, "VaR模型应用", "90分钟", false, "video2.mp4")])
  ]

  const SeedPosts: seq<Post> := [
    Post(1, "如何理解股票市场的波动性？", "最近在学习股票市场，对波动性这个概念还是有些模糊，有没有同学能帮忙解释一下？",
         "student01", "https://api.dicebear.com/7.x/avataaars/svg?seed=student01", "股票讨论",
         ["股票", "波动性", "新手入门"], "2024-01-20 14:30", 15, 8, 156),
    Post(2, "分享一个投资组合优化的案例", "最近做了一个关于投资组合优化的项目，想和大家分享一下心得体会...",
         "teacher01", "https://api.dicebear.com/7.x/avataaars/svg?seed=teacher01", "投资分析",
         ["投资组合", "优化", "案例分享"], "2024-01-19 16:45", 32, 12, 289),
    Post(3, "金融风险管理中的VaR计算问题", "在计算VaR时，历史模拟法和蒙特卡洛模拟法各有什么优缺点？",
         "student02", "https://api.dicebear.com/7.x/avataaars/svg?seed=student02", "风险管理",
         ["VaR", "风险管理", "计算方法"], "2024-01-18 09:20", 8, 5, 98)
  ]
}
